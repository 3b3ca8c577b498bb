/** The burst workload of `perf/fixpp_perf_driver.cpp`: one sender keeps a FIFO window of
    messages in flight while callback threads correlate the replies, all through three maps
    under one mutex. Every critical section is one step of the machine below, and so is every
    point where another thread can run in between. */
module BurstWindow {
  import opened Text

  // ------------------------------------------------------------- correlation ids

  const ADMIN := "bench-admin-"
  const ORDER := "bench-nos-burst-"

  /** One message in ten is a TestRequest, the others are orders. */
  function IdOf(k: nat): string {
    if k % 10 == 0 then ADMIN + Decimal(k) else ORDER + Decimal(k)
  }

  function BodyOf(k: nat): string {
    if k % 10 == 0 then "35=1\U{1}112=" + IdOf(k) + "\U{1}"
    else "35=D\U{1}11=" + IdOf(k) + "\U{1}54=1\U{1}55=AAPL\U{1}38=100\U{1}40=2\U{1}44=100.00\U{1}60=20240101-00:00:00.000\U{1}"
  }

  lemma IdInjective(a: nat, b: nat)
    requires IdOf(a) == IdOf(b)
    ensures a == b
  {
    var s, t := IdOf(a), IdOf(b);
    DecimalNotEmpty(a);
    DecimalNotEmpty(b);
    assert a % 10 == 0 ==> s[6] == 'a' && s[12..] == Decimal(a);
    assert a % 10 != 0 ==> s[6] == 'n' && s[16..] == Decimal(a);
    assert b % 10 == 0 ==> t[6] == 'a' && t[12..] == Decimal(b);
    assert b % 10 != 0 ==> t[6] == 'n' && t[16..] == Decimal(b);
    DecimalInjective(a, b);
  }

  // ------------------------------------------------------------ the shared maps

  /** `burst_sent_ns`, `burst_responses_us` (here in nanoseconds) and `burst_bodies`. */
  datatype Maps = Maps(sent: map<string, int>, responses: map<string, int>, bodies: map<string, string>)

  function Stored(m: Maps, k: nat, now: int): Maps {
    Maps(m.sent[IdOf(k) := now], m.responses, m.bodies[IdOf(k) := BodyOf(k)])
  }

  function Correlated(m: Maps, id: string, now: int): Maps {
    if id in m.sent then m.(responses := m.responses[id := now - m.sent[id]]) else m
  }

  function Erased(m: Maps, id: string): Maps {
    Maps(m.sent - {id}, m.responses - {id}, m.bodies - {id})
  }

  /** The maps as the driver holds them, with its three critical sections. */
  class PerfApp {
    var burstSent: map<string, int>
    var burstResponses: map<string, int>
    var burstBodies: map<string, string>

    ghost function View(): Maps
      reads this
    {
      Maps(burstSent, burstResponses, burstBodies)
    }

    constructor ()
      ensures View() == Maps(map[], map[], map[])
    {
      burstSent, burstResponses, burstBodies := map[], map[], map[];
    }

    /** The critical section of `send_one`. */
    method SendOne(k: nat, now: int) returns (id: string)
      modifies this
      ensures id == IdOf(k) && View() == Stored(old(View()), k, now)
    {
      var body;
      if k % 10 == 0 {
        id := ADMIN + Decimal(k);
        body := "35=1\U{1}112=" + id + "\U{1}";
      } else {
        id := ORDER + Decimal(k);
        body := BodyOf(k);
      }
      burstSent := burstSent[id := now];
      burstBodies := burstBodies[id := body];
    }

    /** The correlation both `fromApp` and `fromAdmin` do with the echoed id. */
    method Correlate(id: string, now: int)
      modifies this
      ensures View() == Correlated(old(View()), id, now)
    {
      if id in burstSent {
        burstResponses := burstResponses[id := now - burstSent[id]];
      }
    }

    /** `wait_for` once its wait is over: None is the timeout. */
    method WaitFor(id: string) returns (rtt: Option<int>)
      modifies this
      ensures rtt.Some? <==> id in old(burstResponses)
      ensures rtt.Some? ==> rtt.value == old(burstResponses)[id] && View() == Erased(old(View()), id)
      ensures rtt.None? ==> View() == old(View())
    {
      if id !in burstResponses { return None; }
      rtt := Some(burstResponses[id]);
      burstResponses := burstResponses - {id};
      burstSent := burstSent - {id};
      burstBodies := burstBodies - {id};
    }
  }

  // ---------------------------------------------------------------- the machine

  datatype Config = Config(warmup: int, measured: int)

  const PHASES := 8

  /** The four warmup phases, then the four measured ones, over the same depths. */
  function Depth(phase: nat): nat {
    match phase % 4 case 0 => 1 case 1 => 8 case 2 => 64 case _ => 256
  }

  function Quota(cfg: Config, phase: nat): nat {
    var n := if phase < 4 then cfg.warmup else cfg.measured;
    if n < 0 then 0 else n
  }

  /** A value in the histogram of a depth and in the pooled one, in microseconds. */
  datatype Sample = Sample(depth: nat, us: int)

  /** What `record` makes of a round trip in nanoseconds. */
  function Recorded(depth: nat, rtt: int): Sample { Sample(depth, if rtt / 1000 < 1 then 1 else rtt / 1000) }

  /** A reply whose receive time is stamped and that waits for the mutex. */
  datatype Callback = Callback(id: string, stamp: int)

  datatype State = State(
    maps: Maps,
    phase: nat, i: nat, pending: seq<string>, seqno: nat, samples: seq<Sample>, waiting: bool, stalled: bool,
    lost: seq<string>,              // what a timed-out wait took off the window
    clock: int,
    spawned: set<string>,           // sends whose coroutine has not yet read the body
    written: set<string>,           // messages on the wire
    callbacks: multiset<Callback>)

  function Start(clock: int): State {
    State(Maps(map[], map[], map[]), 0, 0, [], 0, [], false, false, [], clock, {}, {}, multiset{})
  }

  datatype Action =
    | Tick(now: int)
    | Send
    | Drain
    | NextPhase
    | WaitDone
    | WaitTimeout
    | Write(id: string)
    | Reply(id: string)
    | Lock(callback: Callback)

  predicate Running(s: State) { !s.stalled && s.phase < PHASES }

  predicate Finished(s: State) { !s.stalled && s.phase == PHASES }

  ghost predicate IsForeign(id: string) { forall k: nat :: IdOf(k) != id }

  /** When a step can happen. Replies come for messages already written, in any order and any
      number of times, or carry an id that is none of ours. */
  ghost predicate Enabled(cfg: Config, s: State, a: Action) {
    match a
    case Tick(now) => s.clock <= now
    case Send => Running(s) && !s.waiting && s.i < Quota(cfg, s.phase)
    case Drain => Running(s) && !s.waiting && s.i >= Quota(cfg, s.phase) && s.pending != []
    case NextPhase => Running(s) && !s.waiting && s.i >= Quota(cfg, s.phase) && s.pending == []
    case WaitDone => Running(s) && s.waiting && s.pending != [] && s.pending[0] in s.maps.responses
    case WaitTimeout => Running(s) && s.waiting && s.pending != [] && s.pending[0] !in s.maps.responses
    case Write(id) => id in s.spawned
    case Reply(id) => id in s.written || IsForeign(id)
    case Lock(cb) => cb in s.callbacks
  }

  function Apply(cfg: Config, s: State, a: Action): State {
    match a
    case Tick(now) => s.(clock := now)
    case Send =>
      var id := IdOf(s.seqno);
      s.(maps := Stored(s.maps, s.seqno, s.clock), pending := s.pending + [id], seqno := s.seqno + 1,
         i := s.i + 1, spawned := s.spawned + {id}, waiting := |s.pending| + 1 >= Depth(s.phase))
    case Drain => s.(waiting := true)
    case NextPhase => s.(phase := s.phase + 1, i := 0)
    case WaitDone =>
      if s.pending == [] || s.pending[0] !in s.maps.responses then s
      else
        var id := s.pending[0];
        var rtt := s.maps.responses[id];
        var t := s.(maps := Erased(s.maps, id), pending := s.pending[1..], waiting := false);
        if rtt < 0 then t.(stalled := true)
        else if s.phase >= 4 then t.(samples := s.samples + [Recorded(Depth(s.phase), rtt)])
        else t
    case WaitTimeout =>
      if s.pending == [] then s
      else s.(stalled := true, waiting := false, lost := [s.pending[0]], pending := s.pending[1..])
    case Write(id) => s.(spawned := s.spawned - {id}, written := s.written + {id})
    case Reply(id) => s.(callbacks := s.callbacks + multiset{Callback(id, s.clock)})
    case Lock(cb) =>
      s.(maps := Correlated(s.maps, cb.id, cb.stamp), callbacks := s.callbacks - multiset{cb})
  }

  /** A run: any interleaving of enabled steps from the start. */
  ghost predicate IsRun(cfg: Config, clock: int, actions: seq<Action>, states: seq<State>) {
    && |states| == |actions| + 1 && states[0] == Start(clock)
    && (forall n | 0 <= n < |actions| ::
          Enabled(cfg, states[n], actions[n]) && states[n + 1] == Apply(cfg, states[n], actions[n]))
  }

  // --------------------------------------------------------------- the invariant

  /** The ids with consecutive sequence numbers from `lo` up to `hi`. */
  function Ids(lo: nat, hi: nat): (r: seq<string>)
    requires lo <= hi
    ensures |r| == hi - lo && forall j | 0 <= j < |r| :: r[j] == IdOf(lo + j)
  {
    seq(hi - lo, j requires 0 <= j => IdOf(lo + j))
  }

  /** What is in flight, oldest first. */
  function Window(s: State): seq<string> { s.lost + s.pending }

  /** The messages sent before a phase, and those recorded. */
  function SentBefore(cfg: Config, phase: nat): nat {
    if phase == 0 then 0 else SentBefore(cfg, phase - 1) + Quota(cfg, phase - 1)
  }

  function RecordedBefore(cfg: Config, phase: nat): nat {
    if phase <= 4 then 0 else RecordedBefore(cfg, phase - 1) + Quota(cfg, phase - 1)
  }

  ghost predicate Control(cfg: Config, s: State) {
    && s.phase <= PHASES && (s.phase == PHASES ==> !s.waiting && s.pending == [] && s.i == 0)
    && (s.phase < PHASES ==> s.i <= Quota(cfg, s.phase))
    && (s.lost != [] ==> s.stalled)
    && (!s.stalled && s.phase < PHASES ==>
          && |s.pending| <= s.i
          && (if s.waiting then 0 < |s.pending| <= Depth(s.phase) else |s.pending| < Depth(s.phase)))
    && (!s.stalled ==>
          && s.seqno == SentBefore(cfg, s.phase) + s.i
          && |s.samples| == RecordedBefore(cfg, s.phase) + if s.phase >= 4 then s.i - |s.pending| else 0)
  }

  ghost predicate WindowInv(s: State) {
    && |Window(s)| <= s.seqno
    && Window(s) == Ids(s.seqno - |Window(s)|, s.seqno)
    && (s.phase < PHASES ==> |Window(s)| <= Depth(s.phase))
  }

  ghost predicate KeysInv(s: State) {
    && s.maps.sent.Keys == s.maps.bodies.Keys
    && (forall id :: id in s.maps.sent <==> id in Window(s))
    && s.maps.responses.Keys <= s.maps.sent.Keys
  }

  ghost predicate BodiesInv(s: State) {
    forall k: nat | IdOf(k) in s.maps.bodies :: s.maps.bodies[IdOf(k)] == BodyOf(k)
  }

  /** No body is freed before its send has read it. */
  ghost predicate KeepAlive(s: State) {
    && s.spawned <= s.maps.bodies.Keys
    && s.spawned !! s.written && s.spawned !! s.maps.responses.Keys
  }

  ghost predicate IsSent(s: State, id: string) { exists k: nat :: k < s.seqno && id == IdOf(k) }

  /** What is on the wire was sent, and replies are to it or none of our business. */
  ghost predicate WireInv(s: State) {
    && (forall id | id in s.written :: IsSent(s, id))
    && (forall cb | cb in s.callbacks :: cb.id in s.written || IsForeign(cb.id))
  }

  ghost predicate TimeInv(s: State) {
    && (forall id | id in s.maps.sent :: s.maps.sent[id] <= s.clock)
    && (forall cb | cb in s.callbacks && cb.id in s.maps.sent :: s.maps.sent[cb.id] <= cb.stamp)
    && (forall id | id in s.maps.responses :: s.maps.responses[id] >= 0)
  }

  ghost predicate Inv(cfg: Config, s: State) {
    Control(cfg, s) && WindowInv(s) && KeysInv(s) && BodiesInv(s) && KeepAlive(s) && WireInv(s) && TimeInv(s)
  }

  lemma StartInv(cfg: Config, clock: int)
    ensures Inv(cfg, Start(clock))
  {
    assert Window(Start(clock)) == Ids(0, 0);
  }

  lemma NewIdIsFresh(s: State)
    requires WindowInv(s) && KeysInv(s) && KeepAlive(s) && WireInv(s)
    ensures IdOf(s.seqno) !in s.maps.sent && IdOf(s.seqno) !in s.written && IdOf(s.seqno) !in s.spawned
  {
    hide IdOf, BodyOf, Depth;
    var id := IdOf(s.seqno);
    if id in s.maps.sent {
      var j :| 0 <= j < |Window(s)| && Window(s)[j] == id;
      IdInjective(s.seqno, s.seqno - |Window(s)| + j);
    }
    if id in s.written {
      var k: nat :| k < s.seqno && id == IdOf(k);
      IdInjective(s.seqno, k);
    }
  }

  lemma DepthPositive(phase: nat)
    ensures Depth(phase) >= 1
  {
  }

  // Each step is proved component by component; a step that leaves a component's fields alone
  // needs no lemma for it.

  lemma SendKeepsWindow(cfg: Config, s: State)
    requires Control(cfg, s) && WindowInv(s) && Enabled(cfg, s, Send)
    ensures Control(cfg, Apply(cfg, s, Send)) && WindowInv(Apply(cfg, s, Send))
  {
    hide IdOf, BodyOf, Depth, Quota, SentBefore, RecordedBefore, Stored;
    var t := Apply(cfg, s, Send);
    assert Window(t) == Window(s) + [IdOf(s.seqno)];
    DepthPositive(s.phase);
  }

  lemma SendKeepsKeys(cfg: Config, s: State)
    requires WindowInv(s) && KeysInv(s) && BodiesInv(s) && KeepAlive(s) && WireInv(s)
    ensures var t := Apply(cfg, s, Send); KeysInv(t) && BodiesInv(t)
  {
    hide IdOf, BodyOf, Depth, Ids, WindowInv, KeepAlive, WireInv;
    NewIdIsFresh(s);
    var t := Apply(cfg, s, Send);
    var id := IdOf(s.seqno);
    assert Window(t) == Window(s) + [id];
    forall k: nat | IdOf(k) in t.maps.bodies ensures t.maps.bodies[IdOf(k)] == BodyOf(k) {
      if IdOf(k) == id { IdInjective(k, s.seqno); }
    }
  }

  lemma SendKeepsWire(cfg: Config, s: State)
    requires WindowInv(s) && KeysInv(s) && KeepAlive(s) && WireInv(s) && TimeInv(s)
    ensures var t := Apply(cfg, s, Send); KeepAlive(t) && WireInv(t) && TimeInv(t)
  {
    hide IdOf, BodyOf, Depth, Ids, WindowInv;
    NewIdIsFresh(s);
    var t := Apply(cfg, s, Send);
    forall x | x in t.written ensures IsSent(t, x) { assert IsSent(s, x); }
  }

  lemma WaitDoneKeepsWindow(cfg: Config, s: State)
    requires Control(cfg, s) && WindowInv(s) && TimeInv(s) && KeysInv(s) && Enabled(cfg, s, WaitDone)
    ensures Control(cfg, Apply(cfg, s, WaitDone)) && !Apply(cfg, s, WaitDone).stalled
    ensures WindowInv(Apply(cfg, s, WaitDone))
  {
    hide IdOf, BodyOf, Depth, Quota, SentBefore, RecordedBefore, Erased, KeysInv;
    var t := Apply(cfg, s, WaitDone);
    assert Window(s) == s.pending && Window(t) == s.pending[1..];
  }

  /** Erasing the front of the window leaves the maps of the others. */
  lemma ErasedKeys(m: Maps, window: seq<string>)
    requires window != [] && window[0] !in window[1..]
    requires m.sent.Keys == m.bodies.Keys && m.responses.Keys <= m.sent.Keys && forall id :: id in m.sent <==> id in window
    ensures var n := Erased(m, window[0]);
            && n.sent.Keys == n.bodies.Keys && n.responses.Keys <= n.sent.Keys
            && forall id :: id in n.sent <==> id in window[1..]
  {
    assert window == [window[0]] + window[1..];
  }

  lemma WaitDoneKeepsKeys(cfg: Config, s: State)
    requires Control(cfg, s) && WindowInv(s) && KeysInv(s) && Enabled(cfg, s, WaitDone)
    ensures KeysInv(Apply(cfg, s, WaitDone))
  {
    hide WindowInv, Erased, IdOf, BodyOf, Depth, Quota, SentBefore, RecordedBefore, Ids;
    var t := Apply(cfg, s, WaitDone);
    FrontIsUnique(s);
    assert Window(s) == s.pending && Window(t) == s.pending[1..];
    ErasedKeys(s.maps, s.pending);
  }

  lemma WaitDoneKeepsBodies(cfg: Config, s: State)
    requires BodiesInv(s) && Enabled(cfg, s, WaitDone)
    ensures BodiesInv(Apply(cfg, s, WaitDone))
  {
    hide IdOf, BodyOf, Depth, Quota;
  }

  lemma WaitDoneKeepsWire(cfg: Config, s: State)
    requires KeepAlive(s) && WireInv(s) && TimeInv(s) && Enabled(cfg, s, WaitDone)
    ensures var t := Apply(cfg, s, WaitDone); KeepAlive(t) && WireInv(t) && TimeInv(t)
  {
    hide IdOf, BodyOf, Depth, Quota, IsForeign;
    var t := Apply(cfg, s, WaitDone);
    forall x | x in t.written ensures IsSent(t, x) { assert IsSent(s, x); }
  }

  /** The ids in the window are distinct. */
  lemma FrontIsUnique(s: State)
    requires WindowInv(s) && s.lost == [] && s.pending != []
    ensures s.pending[0] !in s.pending[1..]
  {
    hide IdOf, BodyOf, Depth;
    assert Window(s) == s.pending;
    var lo := s.seqno - |s.pending|;
    forall j | 1 <= j < |s.pending| ensures s.pending[j] != s.pending[0] {
      if s.pending[j] == s.pending[0] { IdInjective(lo + j, lo); }
    }
  }

  lemma OutstandingIsSent(s: State, id: string)
    requires WindowInv(s) && KeysInv(s) && id in s.maps.sent
    ensures IsSent(s, id) && !IsForeign(id)
  {
    hide IdOf, BodyOf, Depth;
    var j :| 0 <= j < |Window(s)| && Window(s)[j] == id;
    var k := s.seqno - |Window(s)| + j;
    assert id == IdOf(k) && k < s.seqno;
  }

  lemma LockKeepsKeys(cfg: Config, s: State, cb: Callback)
    requires KeysInv(s) && BodiesInv(s)
    ensures var t := Apply(cfg, s, Lock(cb)); KeysInv(t) && BodiesInv(t) && Window(t) == Window(s)
  {
    hide IdOf, BodyOf;
    assert Window(Apply(cfg, s, Lock(cb))) == Window(s);
  }

  lemma LockKeepsWire(cfg: Config, s: State, cb: Callback)
    requires WindowInv(s) && KeysInv(s) && KeepAlive(s) && WireInv(s) && TimeInv(s) && cb in s.callbacks
    ensures var t := Apply(cfg, s, Lock(cb)); KeepAlive(t) && WireInv(t) && TimeInv(t)
  {
    hide IdOf, BodyOf, IsForeign, WindowInv, KeysInv;
    var t := Apply(cfg, s, Lock(cb));
    assert forall c | c in t.callbacks :: c in s.callbacks;
    if cb.id in s.maps.sent { OutstandingIsSent(s, cb.id); }
    forall x | x in t.written ensures IsSent(t, x) { assert IsSent(s, x); }
  }

  lemma ReplyKeeps(cfg: Config, s: State, id: string)
    requires WindowInv(s) && KeysInv(s) && KeepAlive(s) && WireInv(s) && TimeInv(s)
    requires Enabled(cfg, s, Reply(id))
    ensures var t := Apply(cfg, s, Reply(id)); WireInv(t) && TimeInv(t)
  {
    hide IdOf, BodyOf, Depth, Quota, IsForeign, Ids;
    var t := Apply(cfg, s, Reply(id));
    forall c | c in t.callbacks ensures c in s.callbacks || c == Callback(id, s.clock) {}
    forall x | x in t.written ensures IsSent(t, x) { assert IsSent(s, x); }
  }

  lemma WriteKeeps(cfg: Config, s: State, id: string)
    requires WindowInv(s) && KeysInv(s) && KeepAlive(s) && WireInv(s) && id in s.spawned
    ensures var t := Apply(cfg, s, Write(id)); KeepAlive(t) && WireInv(t)
  {
    hide IdOf, BodyOf, Depth, Quota, IsForeign, Ids;
    OutstandingIsSent(s, id);
    var t := Apply(cfg, s, Write(id));
    forall x | x in t.written ensures IsSent(t, x) { assert IsSent(s, x); }
  }

  lemma TimeoutKeeps(cfg: Config, s: State)
    requires Control(cfg, s) && WindowInv(s) && KeysInv(s) && Enabled(cfg, s, WaitTimeout)
    ensures var t := Apply(cfg, s, WaitTimeout);
            Control(cfg, t) && Window(t) == Window(s)
  {
    hide IdOf, BodyOf, Depth, Quota, SentBefore, RecordedBefore, Ids;
    var t := Apply(cfg, s, WaitTimeout);
    assert Window(s) == s.pending;
    assert Window(t) == [s.pending[0]] + s.pending[1..] == s.pending;
  }

  lemma NextPhaseKeeps(cfg: Config, s: State)
    requires Control(cfg, s) && Enabled(cfg, s, NextPhase)
    ensures Control(cfg, Apply(cfg, s, NextPhase))
  {
    hide IdOf, BodyOf, Depth, Quota;
    DepthPositive(s.phase + 1);
  }

  /** Fields none of the components looks at, or that only grow, do not break them. */
  lemma FrameKeeps(s: State, t: State)
    requires KeysInv(s) && BodiesInv(s) && KeepAlive(s) && WireInv(s) && TimeInv(s)
    requires t.maps == s.maps && Window(t) == Window(s) && t.seqno == s.seqno && t.spawned == s.spawned
    requires t.written == s.written && t.callbacks == s.callbacks && t.clock >= s.clock
    ensures KeysInv(t) && BodiesInv(t) && KeepAlive(t) && WireInv(t) && TimeInv(t)
  {
    hide IdOf, BodyOf, IsForeign;
    forall x | x in t.written ensures IsSent(t, x) { assert IsSent(s, x); }
  }

  /** Every step keeps the invariant. */
  lemma StepKeeps(cfg: Config, s: State, a: Action)
    requires Inv(cfg, s) && Enabled(cfg, s, a)
    ensures Inv(cfg, Apply(cfg, s, a))
  {
    hide IdOf, BodyOf, Depth, Quota, Ids, WireInv, TimeInv, KeepAlive, BodiesInv, KeysInv, SentBefore, RecordedBefore;
    var t := Apply(cfg, s, a);
    match a
    case Send =>
      SendKeepsWindow(cfg, s);
      SendKeepsKeys(cfg, s);
      SendKeepsWire(cfg, s);
    case WaitDone =>
      WaitDoneKeepsWindow(cfg, s);
      WaitDoneKeepsKeys(cfg, s);
      WaitDoneKeepsBodies(cfg, s);
      WaitDoneKeepsWire(cfg, s);
    case WaitTimeout =>
      TimeoutKeeps(cfg, s);
      FrameKeeps(s, t);
    case Lock(cb) =>
      LockKeepsKeys(cfg, s, cb);
      LockKeepsWire(cfg, s, cb);
      SameWindow(s, t);
    case Reply(id) =>
      ReplyKeeps(cfg, s, id);
      SameWindow(s, t);
      SameMaps(s, t);
    case Write(id) =>
      WriteKeeps(cfg, s, id);
      SameWindow(s, t);
      SameMaps(s, t);
      SameTimes(s, t);
    case Tick(now) =>
      SameWindow(s, t);
      FrameKeeps(s, t);
    case Drain =>
      SameWindow(s, t);
      FrameKeeps(s, t);
    case NextPhase =>
      NextPhaseKeeps(cfg, s);
      DepthPositive(t.phase);
      assert Window(t) == Window(s) == [];
      FrameKeeps(s, t);
  }

  lemma SameWindow(s: State, t: State)
    requires WindowInv(s) && t.phase == s.phase && t.seqno == s.seqno && t.lost == s.lost && t.pending == s.pending
    ensures WindowInv(t) && Window(t) == Window(s)
  {
  }

  lemma SameMaps(s: State, t: State)
    requires KeysInv(s) && BodiesInv(s) && t.maps == s.maps && Window(t) == Window(s)
    ensures KeysInv(t) && BodiesInv(t)
    ensures KeepAlive(s) && t.spawned == s.spawned && t.written == s.written ==> KeepAlive(t)
  {
  }

  lemma SameTimes(s: State, t: State)
    requires TimeInv(s) && t.maps == s.maps && t.callbacks == s.callbacks && t.clock >= s.clock
    ensures TimeInv(t)
  {
  }

  // ------------------------------------------------------------------- theorems

  lemma {:induction false} RunKeepsInv(cfg: Config, clock: int, actions: seq<Action>, states: seq<State>, n: nat)
    requires IsRun(cfg, clock, actions, states) && n < |states|
    ensures Inv(cfg, states[n])
    decreases n
  {
    if n == 0 {
      StartInv(cfg, clock);
    } else {
      RunKeepsInv(cfg, clock, actions, states, n - 1);
      StepKeeps(cfg, states[n - 1], actions[n - 1]);
    }
  }

  /** At every point of every interleaving: no more messages are outstanding than the depth, a
      reply is kept only for an outstanding message, and every outstanding message, whether its
      send has run or not, has its own body stored. */
  lemma EveryRunIsSafe(cfg: Config, clock: int, actions: seq<Action>, states: seq<State>, n: nat)
    requires IsRun(cfg, clock, actions, states) && n < |states|
    ensures var s := states[n];
            && |s.maps.sent| <= Depth(if s.phase < PHASES then s.phase else 0)
            && s.maps.responses.Keys <= s.maps.sent.Keys == s.maps.bodies.Keys
            && (forall id | id in s.spawned :: id in s.maps.bodies && id !in s.maps.responses)
            && (forall k: nat | IdOf(k) in s.maps.bodies :: s.maps.bodies[IdOf(k)] == BodyOf(k))
  {
    hide IdOf, BodyOf, Depth, Quota;
    RunKeepsInv(cfg, clock, actions, states, n);
    var s := states[n];
    assert s.maps.sent.Keys == set id | id in Window(s);
    SetOfSeqSize(Window(s));
    if s.phase == PHASES && s.lost != [] { StallIsNotLast(cfg, clock, actions, states, n); }
    DepthPositive(0);
  }

  lemma {:induction false} SetOfSeqSize(xs: seq<string>)
    ensures |set x | x in xs| <= |xs|
  {
    if xs != [] {
      SetOfSeqSize(xs[1..]);
      assert (set x | x in xs) == {xs[0]} + (set x | x in xs[1..]);
    }
  }

  /** A stalled sender never reaches the end. */
  lemma {:induction false} StallIsNotLast(cfg: Config, clock: int, actions: seq<Action>, states: seq<State>, n: nat)
    requires IsRun(cfg, clock, actions, states) && n < |states|
    ensures states[n].stalled ==> states[n].phase < PHASES
    decreases n
  {
    if n > 0 {
      StallIsNotLast(cfg, clock, actions, states, n - 1);
      assert Enabled(cfg, states[n - 1], actions[n - 1]);
      assert states[n] == Apply(cfg, states[n - 1], actions[n - 1]);
    }
  }

  /** A body, once stored, stays as it is until a wait takes its recorded reply. */
  lemma BodyStaysUntilReply(cfg: Config, clock: int, actions: seq<Action>, states: seq<State>, n: nat, id: string)
    requires IsRun(cfg, clock, actions, states) && n < |actions| && id in states[n].maps.bodies
    ensures || (id in states[n + 1].maps.bodies && states[n + 1].maps.bodies[id] == states[n].maps.bodies[id])
            || (actions[n] == WaitDone && id in states[n].maps.responses && id !in states[n].spawned)
  {
    hide IdOf, BodyOf, Inv, Enabled, Apply;
    RunKeepsInv(cfg, clock, actions, states, n);
    assert Enabled(cfg, states[n], actions[n]) && states[n + 1] == Apply(cfg, states[n], actions[n]);
    StepKeepsBody(cfg, states[n], actions[n], id);
  }

  lemma StepKeepsBody(cfg: Config, s: State, a: Action, id: string)
    requires Inv(cfg, s) && Enabled(cfg, s, a) && id in s.maps.bodies
    ensures var t := Apply(cfg, s, a);
            || (id in t.maps.bodies && t.maps.bodies[id] == s.maps.bodies[id])
            || (a == WaitDone && id in s.maps.responses && id !in s.spawned)
  {
    hide IdOf, BodyOf, Depth, Quota, Ids, Control, WireInv, TimeInv, BodiesInv;
    if a == Send { NewIdIsFresh(s); }
  }

  /** The sentinel of `wait_for` is unambiguous: a wait that ends with a reply never looks like
      a timeout, so only a timeout stalls the sender. */
  lemma OnlyTimeoutsStall(cfg: Config, clock: int, actions: seq<Action>, states: seq<State>, n: nat)
    requires IsRun(cfg, clock, actions, states) && n < |actions|
    requires !states[n].stalled && states[n + 1].stalled
    ensures actions[n] == WaitTimeout
  {
    RunKeepsInv(cfg, clock, actions, states, n);
    assert Enabled(cfg, states[n], actions[n]) && states[n + 1] == Apply(cfg, states[n], actions[n]);
    if actions[n] == WaitDone { WaitDoneKeepsWindow(cfg, states[n]); }
  }

  // ------------------------------------------------------------------ what is measured

  lemma {:induction false} SeqnoGrows(cfg: Config, clock: int, actions: seq<Action>, states: seq<State>, a: nat, b: nat)
    requires IsRun(cfg, clock, actions, states) && a <= b < |states|
    ensures states[a].seqno <= states[b].seqno
    decreases b
  {
    hide IdOf, BodyOf, Depth, Quota, Enabled;
    if a < b {
      SeqnoGrows(cfg, clock, actions, states, a, b - 1);
      assert states[b] == Apply(cfg, states[b - 1], actions[b - 1]);
    }
  }

  /** A stored send time is the clock of the step that sent the message. */
  lemma {:induction false} SendTime(cfg: Config, clock: int, actions: seq<Action>, states: seq<State>, n: nat, id: string)
    requires IsRun(cfg, clock, actions, states) && n < |states| && id in states[n].maps.sent
    ensures exists q: nat | q < n ::
              actions[q] == Send && IdOf(states[q].seqno) == id && states[n].maps.sent[id] == states[q].clock
    decreases n
  {
    hide IdOf, BodyOf, Depth, Quota, Enabled, Apply;
    var s, a := states[n - 1], actions[n - 1];
    assert states[n] == Apply(cfg, s, a);
    SentStep(cfg, s, a, id);
    if !(a == Send && id == IdOf(s.seqno)) { SendTime(cfg, clock, actions, states, n - 1, id); }
  }

  lemma SentStep(cfg: Config, s: State, a: Action, id: string)
    requires id in Apply(cfg, s, a).maps.sent
    ensures var sent := Apply(cfg, s, a).maps.sent;
            if a == Send && id == IdOf(s.seqno) then sent[id] == s.clock else id in s.maps.sent && sent[id] == s.maps.sent[id]
  {
    hide IdOf, BodyOf, Depth, Quota, Recorded;
  }

  /** A callback's stamp is the clock of the step at which the reply came. */
  lemma {:induction false} StampTime(cfg: Config, clock: int, actions: seq<Action>, states: seq<State>, n: nat, cb: Callback)
    requires IsRun(cfg, clock, actions, states) && n < |states| && cb in states[n].callbacks
    ensures exists r: nat | r < n :: actions[r] == Reply(cb.id) && states[r].clock == cb.stamp
    decreases n
  {
    hide IdOf, BodyOf, Enabled, Apply;
    var s, a := states[n - 1], actions[n - 1];
    assert states[n] == Apply(cfg, s, a);
    CallbackStep(cfg, s, a, cb);
    if cb in s.callbacks { StampTime(cfg, clock, actions, states, n - 1, cb); }
  }

  lemma CallbackStep(cfg: Config, s: State, a: Action, cb: Callback)
    requires cb in Apply(cfg, s, a).callbacks
    ensures cb in s.callbacks || (a == Reply(cb.id) && cb.stamp == s.clock)
  {
    hide IdOf, BodyOf, Depth, Stored, Erased, Correlated, Recorded;
  }

  predicate Locks(a: Action, id: string) { a.Lock? && a.callback.id == id }

  /** The reply of `id` that counts at step `n` was locked at step `l`, the last one before. */
  predicate IsLastLock(actions: seq<Action>, n: nat, id: string, l: nat)
    requires n <= |actions|
  {
    l < n && Locks(actions[l], id) && forall m | l < m < n :: !Locks(actions[m], id)
  }

  /** What is recorded for a message is the stamp of its last reply so far, less its send time. */
  lemma {:induction false} LastLock(cfg: Config, clock: int, actions: seq<Action>, states: seq<State>, n: nat, id: string)
    requires IsRun(cfg, clock, actions, states) && n < |states| && id in states[n].maps.responses
    ensures id in states[n].maps.sent
    ensures exists l: nat | IsLastLock(actions, n, id, l) ::
              states[n].maps.responses[id] == actions[l].callback.stamp - states[n].maps.sent[id]
    decreases n
  {
    hide IdOf, BodyOf, Depth, Quota, Inv, Apply, Enabled;
    RunKeepsInv(cfg, clock, actions, states, n - 1);
    var s, a := states[n - 1], actions[n - 1];
    assert Enabled(cfg, s, a) && states[n] == Apply(cfg, s, a);
    ResponseStep(cfg, s, a, id);
    if Locks(a, id) {
      assert IsLastLock(actions, n, id, n - 1);
    } else {
      LastLock(cfg, clock, actions, states, n - 1, id);
      var l: nat :| IsLastLock(actions, n - 1, id, l) && s.maps.responses[id] == actions[l].callback.stamp - s.maps.sent[id];
      assert IsLastLock(actions, n, id, l);
    }
  }

  /** After any step a response is the one just locked, or the one that was there. */
  lemma ResponseStep(cfg: Config, s: State, a: Action, id: string)
    requires Inv(cfg, s) && Enabled(cfg, s, a) && id in Apply(cfg, s, a).maps.responses
    ensures var t := Apply(cfg, s, a);
            && id in s.maps.sent && id in t.maps.sent
            && if Locks(a, id) then t.maps.responses[id] == a.callback.stamp - t.maps.sent[id]
               else && id in s.maps.responses && t.maps.responses[id] == s.maps.responses[id]
                    && t.maps.sent[id] == s.maps.sent[id]
  {
    hide IdOf, BodyOf, Inv, Apply, Enabled;
    MapsStep(cfg, s, a);
    if id in s.maps.responses { RespondedIsSent(cfg, s, id); }
  }

  /** What the three critical sections do to the maps, and nothing else does. */
  lemma MapsStep(cfg: Config, s: State, a: Action)
    requires Enabled(cfg, s, a)
    ensures Apply(cfg, s, a).maps ==
            match a
            case Send => Stored(s.maps, s.seqno, s.clock)
            case WaitDone => Erased(s.maps, if s.pending == [] then "" else s.pending[0])
            case Lock(cb) => Correlated(s.maps, cb.id, cb.stamp)
            case _ => s.maps
  {
    hide IdOf, BodyOf, Depth, Quota, Stored, Erased, Correlated;
  }

  lemma RespondedIsSent(cfg: Config, s: State, id: string)
    requires Inv(cfg, s) && id in s.maps.responses
    ensures id in s.maps.sent && id != IdOf(s.seqno)
  {
    hide IdOf, BodyOf, Depth, Quota, WindowInv, WireInv, KeepAlive, Control;
    NewIdIsFresh(s);
  }

  /** The message with this id was sent at step `q`, and the reply that counts at step `n`, the
      last one to be locked before, came at step `r` and was locked at step `l`. */
  ghost predicate IsRoundTrip(actions: seq<Action>, states: seq<State>, n: nat, id: string, q: nat, r: nat, l: nat)
    requires n < |actions| < |states|
  {
    && q < r < l < n
    && actions[q] == Send && IdOf(states[q].seqno) == id
    && actions[r] == Reply(id)
    && actions[l] == Lock(Callback(id, states[r].clock)) && IsLastLock(actions, n, id, l)
  }

  lemma ReplyAfterSend(cfg: Config, clock: int, actions: seq<Action>, states: seq<State>, q: nat, r: nat)
    requires IsRun(cfg, clock, actions, states) && q < |actions| && r < |actions|
    requires actions[r] == Reply(IdOf(states[q].seqno))
    ensures states[q].seqno < states[r].seqno
  {
    hide IdOf, BodyOf, Depth, Quota, WindowInv, KeysInv, KeepAlive, Control, Apply;
    RunKeepsInv(cfg, clock, actions, states, r);
    assert Enabled(cfg, states[r], actions[r]);
    assert IsSent(states[r], IdOf(states[q].seqno));
    var k: nat :| k < states[r].seqno && IdOf(states[q].seqno) == IdOf(k);
    IdInjective(states[q].seqno, k);
  }

  /** The round trip the sender takes is the time from the send of the message to the arrival of
      its last reply to be locked. */
  lemma TakenIsRoundTrip(cfg: Config, clock: int, actions: seq<Action>, states: seq<State>, n: nat)
      returns (q: nat, r: nat, l: nat)
    requires IsRun(cfg, clock, actions, states) && n < |actions| && actions[n] == WaitDone
    ensures states[n].pending != [] && IsRoundTrip(actions, states, n, states[n].pending[0], q, r, l)
    ensures states[n].pending[0] in states[n].maps.responses
    ensures states[n].maps.responses[states[n].pending[0]] == states[r].clock - states[q].clock
  {
    hide IdOf, BodyOf, Depth, Quota, Apply, Recorded;
    assert Enabled(cfg, states[n], actions[n]);
    var id := states[n].pending[0];
    LastLock(cfg, clock, actions, states, n, id);
    l :| IsLastLock(actions, n, id, l) && states[n].maps.responses[id] == actions[l].callback.stamp - states[n].maps.sent[id];
    var cb := actions[l].callback;
    SendTime(cfg, clock, actions, states, n, id);
    q :| q < n && actions[q] == Send && IdOf(states[q].seqno) == id && states[n].maps.sent[id] == states[q].clock;
    assert Enabled(cfg, states[l], actions[l]);
    StampTime(cfg, clock, actions, states, l, cb);
    r :| r < l && actions[r] == Reply(id) && states[r].clock == cb.stamp;
    ReplyAfterSend(cfg, clock, actions, states, q, r);
    if r <= q { SeqnoGrows(cfg, clock, actions, states, r, q); }
  }

  /** Sample `j` is the round trip of the `j`th measured message, taken at a step before `n`. */
  ghost predicate IsMeasurement(cfg: Config, actions: seq<Action>, states: seq<State>, n: nat, j: nat, x: Sample) {
    exists m: nat, q: nat, r: nat, l: nat ::
      MeasuredAt(cfg, actions, states, n, j, x, m, q, r, l)
  }

  ghost predicate MeasuredAt(cfg: Config, actions: seq<Action>, states: seq<State>, n: nat, j: nat, x: Sample,
                             m: nat, q: nat, r: nat, l: nat) {
    && m < n <= |actions| < |states| && actions[m] == WaitDone
    && IsRoundTrip(actions, states, m, IdOf(SentBefore(cfg, 4) + j), q, r, l)
    && var us := (states[r].clock - states[q].clock) / 1000;
       x == Sample(Depth(states[m].phase), if us < 1 then 1 else us)
  }

  lemma {:induction false} SentIsRecorded(cfg: Config, phase: nat)
    requires phase >= 4
    ensures SentBefore(cfg, phase) == SentBefore(cfg, 4) + RecordedBefore(cfg, phase)
  {
    hide Quota;
    if phase > 4 { SentIsRecorded(cfg, phase - 1); }
  }

  /** Every sample of every run is such a measurement, in the order of the messages. */
  lemma {:induction false} EverySampleIsMeasured(cfg: Config, clock: int, actions: seq<Action>, states: seq<State>, n: nat, j: nat)
    requires IsRun(cfg, clock, actions, states) && n < |states| && j < |states[n].samples|
    ensures IsMeasurement(cfg, actions, states, n, j, states[n].samples[j])
    decreases n
  {
    hide IdOf, BodyOf, Depth, Quota, SentBefore, RecordedBefore, IsRoundTrip, IsRun, Apply;
    SamplesStep(cfg, clock, actions, states, n);
    var s := states[n - 1];
    if j < |s.samples| {
      EverySampleIsMeasured(cfg, clock, actions, states, n - 1, j);
      var m: nat, q: nat, r: nat, l: nat :| MeasuredAt(cfg, actions, states, n - 1, j, s.samples[j], m, q, r, l);
      assert MeasuredAt(cfg, actions, states, n, j, s.samples[j], m, q, r, l);
    } else {
      var q, r, l := TakenIsRoundTrip(cfg, clock, actions, states, n - 1);
      NextMeasured(cfg, clock, actions, states, n - 1);
      assert MeasuredAt(cfg, actions, states, n, j, states[n].samples[j], n - 1, q, r, l);
    }
  }

  /** A step adds at most the round trip that a measured wait takes. */
  lemma SamplesStep(cfg: Config, clock: int, actions: seq<Action>, states: seq<State>, n: nat)
    requires IsRun(cfg, clock, actions, states) && n < |states| && states[n].samples != []
    ensures 0 < n < |states| == |actions| + 1
    ensures var s := states[n - 1];
            || states[n].samples == s.samples
            || (&& actions[n - 1] == WaitDone && s.phase >= 4 && s.pending != [] && s.pending[0] in s.maps.responses
                && Running(s) && states[n].samples == s.samples + [Recorded(Depth(s.phase), s.maps.responses[s.pending[0]])])
  {
    hide IdOf, BodyOf, Depth, Quota, Recorded;
    assert n > 0 ==> Enabled(cfg, states[n - 1], actions[n - 1]) && states[n] == Apply(cfg, states[n - 1], actions[n - 1]);
  }

  /** The front of the window of a measured phase is the next message without a sample. */
  lemma NextMeasured(cfg: Config, clock: int, actions: seq<Action>, states: seq<State>, n: nat)
    requires IsRun(cfg, clock, actions, states) && n < |states|
    requires Running(states[n]) && states[n].phase >= 4 && states[n].pending != []
    ensures states[n].pending[0] == IdOf(SentBefore(cfg, 4) + |states[n].samples|)
  {
    hide IdOf, BodyOf, Depth, Quota, SentBefore, RecordedBefore, IsRun, KeysInv, BodiesInv, KeepAlive, WireInv, TimeInv;
    RunKeepsInv(cfg, clock, actions, states, n);
    var s := states[n];
    SentIsRecorded(cfg, s.phase);
    assert Window(s) == s.pending;
    assert s.pending[0] == IdOf(s.seqno - |s.pending|);
  }

  /** A run that ends without a stall has recorded every measured message of the four depths
      and leaves all three maps empty. */
  lemma UnstalledRunIsComplete(cfg: Config, clock: int, actions: seq<Action>, states: seq<State>, n: nat)
    requires IsRun(cfg, clock, actions, states) && n < |states| && Finished(states[n])
    ensures var s := states[n];
            && s.maps == Maps(map[], map[], map[]) && s.spawned == {}
            && |s.samples| == 4 * (if cfg.measured < 0 then 0 else cfg.measured)
            && s.seqno == |s.samples| + 4 * (if cfg.warmup < 0 then 0 else cfg.warmup)
  {
    RunKeepsInv(cfg, clock, actions, states, n);
    var s := states[n];
    assert Window(s) == [];
    assert s.maps.sent == map[] && s.maps.bodies == map[] && s.maps.responses == map[];
    Totals(cfg);
  }

  lemma Totals(cfg: Config)
    ensures RecordedBefore(cfg, 8) == 4 * Quota(cfg, 4) && SentBefore(cfg, 8) == 4 * Quota(cfg, 0) + 4 * Quota(cfg, 4)
  {
    var m, w := Quota(cfg, 4), Quota(cfg, 0);
    assert RecordedBefore(cfg, 5) == m;
    assert RecordedBefore(cfg, 6) == 2 * m;
    assert RecordedBefore(cfg, 7) == 3 * m;
    assert SentBefore(cfg, 1) == w;
    assert SentBefore(cfg, 2) == 2 * w;
    assert SentBefore(cfg, 3) == 3 * w;
    assert SentBefore(cfg, 4) == 4 * w;
    assert SentBefore(cfg, 5) == 4 * w + m;
    assert SentBefore(cfg, 6) == 4 * w + 2 * m;
    assert SentBefore(cfg, 7) == 4 * w + 3 * m;
  }

  /** Until it ends or stalls the sender can always go on: it is never stuck on the window. */
  lemma SenderNeverStuck(cfg: Config, clock: int, actions: seq<Action>, states: seq<State>, n: nat)
    requires IsRun(cfg, clock, actions, states) && n < |states| && Running(states[n])
    ensures exists a | a in [Send, Drain, NextPhase, WaitDone, WaitTimeout] :: Enabled(cfg, states[n], a)
  {
    RunKeepsInv(cfg, clock, actions, states, n);
    var s := states[n];
    var a := if s.waiting then (if s.pending[0] in s.maps.responses then WaitDone else WaitTimeout)
             else if s.i < Quota(cfg, s.phase) then Send
             else if s.pending != [] then Drain else NextPhase;
    assert a in [Send, Drain, NextPhase, WaitDone, WaitTimeout] && Enabled(cfg, s, a);
  }
}
