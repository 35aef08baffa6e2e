/**
 Runs of the engine over sequences of events from its environment (the two
 timers, the host's slide show events and the host shell's connect request),
 and what holds of every such run.
 */
module Traces {
  import opened Types
  import opened History
  import opened Session

  datatype Event =
    | LivenessTick(found: bool, probeOk: bool)   // liveness timer elapsed
    | ConnectRequest(found: bool)                // InitializePowerpoint called directly
    | CaptureTick(outcome: CaptureOutcome)       // capture timer elapsed
    | SlideShowBegin
    | SlideShowEnd
    | SlideChanged(index: int)

  /** One event; a disabled capture timer raises no tick. */
  function Apply(s: State, e: Event, capacity: nat): State
  {
    match e
      case LivenessTick(found, probeOk) => Poll(s, found, probeOk)
      case ConnectRequest(found) => Initialize(s, found).0
      case CaptureTick(outcome) => if s.captureArmed then Capture(s, outcome) else s
      case SlideShowBegin => BeginSession(s)
      case SlideShowEnd => EndSession(s)
      case SlideChanged(index) => NextSlide(s, index, capacity)
  }

  function Run(s: State, es: seq<Event>, capacity: nat): State
    decreases |es|
  {
    if es == [] then s else Run(Apply(s, es[0], capacity), es[1..], capacity)
  }

  lemma RunCons(s: State, es: seq<Event>, capacity: nat)
    requires es != []
    ensures Run(s, es, capacity) == Run(Apply(s, es[0], capacity), es[1..], capacity)
  {
  }

  lemma ApplyPreservesValid(s: State, e: Event, capacity: nat)
    requires Valid(s, capacity)
    ensures Valid(Apply(s, e, capacity), capacity)
  {
  }

  /** No sequence of events lets the history outgrow the dialogs, or changes their number. */
  lemma {:induction false} RunPreservesValid(s: State, es: seq<Event>, capacity: nat)
    requires Valid(s, capacity)
    ensures Valid(Run(s, es, capacity), capacity)
    decreases |es|
  {
    if es != [] {
      ApplyPreservesValid(s, es[0], capacity);
      RunPreservesValid(Apply(s, es[0], capacity), es[1..], capacity);
    }
  }

  // ---------------------------------------------------------------------------
  // Forward navigation

  /** The slide changes from + 1, from + 2, ..., from + k. */
  function Forward(from: int, k: nat): seq<Event>
    decreases k
  {
    if k == 0 then [] else [SlideChanged(from + 1)] + Forward(from + 1, k - 1)
  }

  /** Every slide from lo up to (not including) hi has a cached frame. */
  predicate CachedRange(cache: map<int, Frame>, lo: int, hi: int)
  {
    forall j :: lo <= j < hi ==> j in cache
  }

  /** The cached frames of slides hi - 1 down to lo. */
  function Recent(cache: map<int, Frame>, lo: int, hi: int): seq<Frame>
    requires CachedRange(cache, lo, hi)
    decreases hi - lo
  {
    if hi <= lo then [] else [cache[hi - 1]] + Recent(cache, lo, hi - 1)
  }

  lemma {:induction false} RecentLow(cache: map<int, Frame>, lo: int, hi: int)
    requires lo < hi
    requires CachedRange(cache, lo, hi)
    ensures Recent(cache, lo, hi) == Recent(cache, lo + 1, hi) + [cache[lo]]
    decreases hi - lo
  {
    if hi > lo + 1 {
      RecentLow(cache, lo, hi - 1);
    }
  }

  lemma TakeAbsorb<T>(a: seq<T>, b: seq<T>, n: nat)
    ensures Take(a + Take(b, n), n) == Take(a + b, n)
  {
    if |b| > n {
      assert |a + b[..n]| >= n;
      assert (a + b[..n])[..n] == (a + b)[..n];
    }
  }

  lemma ForwardAlgebra(cache: map<int, Frame>, lo: int, hi: int, h: seq<Frame>, capacity: nat)
    requires lo < hi && CachedRange(cache, lo, hi)
    ensures Take(Recent(cache, lo + 1, hi) + Take([cache[lo]] + h, capacity), capacity)
         == Take(Recent(cache, lo, hi) + h, capacity)
  {
    var older, x := Recent(cache, lo + 1, hi), cache[lo];
    RecentLow(cache, lo, hi);
    TakeAbsorb(older, [x] + h, capacity);
    assert (older + [x]) + h == older + ([x] + h);
  }

  /**
   One slide change whose previous slide has a cached frame, with a bounded
   history: the frame is the new first entry of the history cut to capacity.
   */
  lemma PromotingStep(s: State, index: int, capacity: nat)
    requires |s.history| <= capacity
    requires PreviousIndex(s.current, index) in s.cache
    ensures var t := NextSlide(s, index, capacity);
      && t.cache == s.cache && t.current == index && |t.history| <= capacity
      && t.history == Take([s.cache[PreviousIndex(s.current, index)]] + s.history, capacity)
  {
    PromoteIsTake(s.history, s.cache[PreviousIndex(s.current, index)], capacity);
  }

  /** The slide changes of Forward(from, k), one NextSlide after another. */
  function Slides(s: State, from: int, k: nat, capacity: nat): State
    decreases k
  {
    if k == 0 then s else Slides(NextSlide(s, from + 1, capacity), from + 1, k - 1, capacity)
  }

  lemma {:induction false} RunForward(s: State, from: int, k: nat, capacity: nat)
    ensures Run(s, Forward(from, k), capacity) == Slides(s, from, k, capacity)
    decreases k
  {
    var es := Forward(from, k);
    if k > 0 {
      assert es[0] == SlideChanged(from + 1) && es[1..] == Forward(from + 1, k - 1);
      RunCons(s, es, capacity);
      RunForward(NextSlide(s, from + 1, capacity), from + 1, k - 1, capacity);
    } else {
      assert es == [];
    }
  }

  lemma {:induction false} SlidesHistory(s: State, cache: map<int, Frame>, lo: int, k: nat, hi: int, h: seq<Frame>, capacity: nat)
    requires s.cache == cache && s.current == lo && s.history == h && |h| <= capacity
    requires hi == lo + k && CachedRange(cache, lo, hi)
    ensures Slides(s, lo, k, capacity).current == hi
    ensures Slides(s, lo, k, capacity).history == Take(Recent(cache, lo, hi) + h, capacity)
    decreases k
  {
    if k > 0 {
      var t := NextSlide(s, lo + 1, capacity);
      PromotingStep(s, lo + 1, capacity);
      var h' := Take([cache[lo]] + h, capacity);
      assert t.cache == cache && t.current == lo + 1 && t.history == h';
      SlidesHistory(t, cache, lo + 1, k - 1, hi, h', capacity);
      assert Slides(s, lo, k, capacity) == Slides(t, lo + 1, k - 1, capacity);
      ForwardAlgebra(cache, lo, hi, h, capacity);
    } else {
      assert Recent(cache, lo, hi) + h == h;
    }
  }

  /**
   Moving forward one slide at a time from the current slide, with a frame
   cached for every slide passed, leaves the frames of the slides left,
   most recent first, in front of the old history, cut to capacity.
   */
  lemma ForwardRun(s: State, k: nat, capacity: nat)
    requires |s.history| <= capacity
    requires CachedRange(s.cache, s.current, s.current + k)
    ensures Run(s, Forward(s.current, k), capacity).current == s.current + k
    ensures Run(s, Forward(s.current, k), capacity).history
         == Take(Recent(s.cache, s.current, s.current + k) + s.history, capacity)
  {
    RunForward(s, s.current, k, capacity);
    SlidesHistory(s, s.cache, s.current, k, s.current + k, s.history, capacity);
  }

  /**
   Two dialogs, slides 1 to 4 in order with screenshots of slides 1, 2 and 3:
   the history ends with the screenshots of slides 3 and 2.
   */
  lemma FourSlidesTwoDialogs(s: State, c1: Frame, c2: Frame, c3: Frame)
    requires s.current == 1 && s.history == []
    requires s.cache == map[1 := c1, 2 := c2, 3 := c3]
    ensures Run(s, [SlideChanged(2), SlideChanged(3), SlideChanged(4)], 2).history == [c3, c2]
  {
    assert Forward(1, 3) == [SlideChanged(2), SlideChanged(3), SlideChanged(4)];
    ForwardRun(s, 3, 2);
    assert Recent(s.cache, 1, 4) == [c3, c2, c1];
  }

  lemma RunTwoSlides(s: State, i: int, j: int, capacity: nat)
    ensures Run(s, [SlideChanged(i), SlideChanged(j)], capacity)
         == NextSlide(NextSlide(s, i, capacity), j, capacity)
  {
    var es := [SlideChanged(i), SlideChanged(j)];
    assert es[1..] == [SlideChanged(j)] && [SlideChanged(j)][1..] == [];
    RunCons(s, es, capacity);
    RunCons(NextSlide(s, i, capacity), [SlideChanged(j)], capacity);
  }

  /** Stepping back one slide and forward again promotes both slides, nearest first. */
  lemma BackAndForth(s: State, capacity: nat)
    requires |s.history| <= capacity
    requires s.current in s.cache && s.current - 1 in s.cache
    ensures Run(s, [SlideChanged(s.current - 1), SlideChanged(s.current)], capacity).history
         == Take([s.cache[s.current - 1], s.cache[s.current]] + s.history, capacity)
  {
    RunTwoSlides(s, s.current - 1, s.current, capacity);
    BackAndForthSteps(s, capacity);
  }

  lemma BackAndForthSteps(s: State, capacity: nat)
    requires |s.history| <= capacity
    requires s.current in s.cache && s.current - 1 in s.cache
    ensures NextSlide(NextSlide(s, s.current - 1, capacity), s.current, capacity).history
         == Take([s.cache[s.current - 1], s.cache[s.current]] + s.history, capacity)
  {
    var c, cache, h := s.current, s.cache, s.history;
    var t := NextSlide(s, c - 1, capacity);
    PromotingStep(s, c - 1, capacity);
    var h' := Take([cache[c]] + h, capacity);
    assert t.cache == cache && t.current == c - 1 && t.history == h';
    PromotingStep(t, c, capacity);
    assert NextSlide(t, c, capacity).history == Take([cache[c - 1]] + h', capacity);
    TakeAbsorb([cache[c - 1]], [cache[c]] + h, capacity);
    assert [cache[c - 1]] + ([cache[c]] + h) == [cache[c - 1], cache[c]] + h;
  }

  // ---------------------------------------------------------------------------
  // Where history entries come from

  /** The frames captured by the capture ticks of es. */
  function CapturedIn(es: seq<Event>): set<Frame>
    decreases |es|
  {
    if es == [] then {}
    else (if es[0].CaptureTick? && es[0].outcome.Captured? then {es[0].outcome.frame} else {})
         + CapturedIn(es[1..])
  }

  /** Every cached frame is in newer, and every history entry is in newer or in kept. */
  ghost predicate FramesFrom(s: State, newer: set<Frame>, kept: set<Frame>)
  {
    && (forall k :: k in s.cache ==> s.cache[k] in newer)
    && (forall i :: 0 <= i < |s.history| ==> s.history[i] in newer || s.history[i] in kept)
  }

  lemma ApplyFramesFrom(s: State, e: Event, capacity: nat, newer: set<Frame>, kept: set<Frame>)
    requires FramesFrom(s, newer, kept)
    ensures FramesFrom(Apply(s, e, capacity), newer + CapturedIn([e]), kept)
  {
    var t := Apply(s, e, capacity);
    var newer' := newer + CapturedIn([e]);
    assert CapturedIn([e]) == (if e.CaptureTick? && e.outcome.Captured? then {e.outcome.frame} else {});
    if e.SlideChanged? {
      forall i | 0 <= i < |t.history| ensures t.history[i] in newer' || t.history[i] in kept {
        if t.history != s.history && i == 0 {
          assert t.history[0] in s.cache.Values;
        }
      }
    }
  }

  lemma {:induction false} RunFramesFrom(s: State, es: seq<Event>, capacity: nat, newer: set<Frame>, kept: set<Frame>)
    requires FramesFrom(s, newer, kept)
    ensures FramesFrom(Run(s, es, capacity), newer + CapturedIn(es), kept)
    decreases |es|
  {
    if es != [] {
      ApplyFramesFrom(s, es[0], capacity, newer, kept);
      assert CapturedIn(es) == CapturedIn([es[0]]) + CapturedIn(es[1..]);
      RunFramesFrom(Apply(s, es[0], capacity), es[1..], capacity, newer + CapturedIn([es[0]]), kept);
    }
  }

  /**
   After a slide show begins, the cache holds only frames captured since, and
   a history entry is either captured since or was already in the history:
   a frame cached before the slide show began and not already in the history
   never reaches it.
   */
  lemma SessionStartProvenance(s: State, es: seq<Event>, capacity: nat)
    ensures var t := Run(s, [SlideShowBegin] + es, capacity);
      && (forall k :: k in t.cache ==> t.cache[k] in CapturedIn(es))
      && (forall i :: 0 <= i < |t.history| ==> t.history[i] in CapturedIn(es) || t.history[i] in s.history)
      && (forall f :: f in s.cache.Values && f !in s.history && f !in CapturedIn(es) ==> f !in t.history)
  {
    var u := BeginSession(s);
    var kept := set i | 0 <= i < |s.history| :: s.history[i];
    assert FramesFrom(u, {}, kept);
    assert ([SlideShowBegin] + es)[1..] == es;
    RunFramesFrom(u, es, capacity, {}, kept);
  }

  // ---------------------------------------------------------------------------
  // Capture runs only while connected

  /**
   The runs on which capture is armed only while connected: a slide show
   begins only while an instance is held, and the host shell's connect
   request does not fail. The source guarantees neither: a dropped
   instance keeps its event subscriptions, so a live host whose probe
   failed can still begin a slide show (ProbeDropThenBeginRearms), and a
   failed connect request keeps capture armed
   (FailedConnectLeavesCaptureArmed).
   */
  predicate HostDriven(s: State, e: Event)
  {
    match e
      case ConnectRequest(found) => found
      case SlideShowBegin => s.connected
      case _ => true
  }

  predicate Admissible(s: State, es: seq<Event>, capacity: nat)
    decreases |es|
  {
    es == [] || (HostDriven(s, es[0]) && Admissible(Apply(s, es[0], capacity), es[1..], capacity))
  }

  /** On host-driven runs the capture timer is armed only while an instance is held. */
  lemma {:induction false} ArmedOnlyWhileConnected(s: State, es: seq<Event>, capacity: nat)
    requires s.captureArmed ==> s.connected
    requires Admissible(s, es, capacity)
    ensures Run(s, es, capacity).captureArmed ==> Run(s, es, capacity).connected
    decreases |es|
  {
    if es != [] {
      var t := Apply(s, es[0], capacity);
      assert t.captureArmed ==> t.connected;
      ArmedOnlyWhileConnected(t, es[1..], capacity);
    }
  }

  /**
   A failed direct connect request drops the instance but leaves capture
   armed; the next capture tick then only disarms it.
   */
  lemma FailedConnectLeavesCaptureArmed(s: State, o: CaptureOutcome, capacity: nat)
    requires s.connected && s.captureArmed
    ensures var t := Apply(s, ConnectRequest(false), capacity);
      && t.captureArmed && !t.connected
      && Apply(t, CaptureTick(o), capacity) == t.(captureArmed := false)
  {
  }

  /**
   A failed probe drops the instance but does not unsubscribe its handlers,
   so a host that is still alive can begin a slide show and arm capture
   while no instance is held.
   */
  lemma ProbeDropThenBeginRearms(s: State, capacity: nat)
    requires s.connected && s.captureArmed
    ensures var t := Run(s, [LivenessTick(true, false), SlideShowBegin], capacity);
      t.captureArmed && !t.connected
  {
    var es := [LivenessTick(true, false), SlideShowBegin];
    var u := Poll(s, true, false);
    assert es[1..] == [SlideShowBegin] && [SlideShowBegin][1..] == [];
    RunCons(s, es, capacity);
    RunCons(u, [SlideShowBegin], capacity);
  }

  /** The capture timer raises no tick while disabled. */
  lemma CaptureTickWhileDisarmed(s: State, o: CaptureOutcome, capacity: nat)
    requires !s.captureArmed
    ensures Apply(s, CaptureTick(o), capacity) == s
  {
  }

  /**
   While connected and armed, a capture tick disarms capture, and reports
   DISCONNECTED, exactly when its outcome is one of the disconnect failures.
   */
  lemma CaptureDisarmsExactlyOnDisconnect(s: State, o: CaptureOutcome, capacity: nat)
    requires s.connected && s.captureArmed
    ensures var t := Apply(s, CaptureTick(o), capacity);
      && (!t.captureArmed <==> IsDisconnect(o))
      && (t.log == s.log + [Disconnected] <==> IsDisconnect(o))
      && (!IsDisconnect(o) ==> t.log == s.log)
  {
  }

  /**
   Revisiting a slide goes stale: recapturing a slide whose frame is in the
   history disposes that frame, and the next refresh cannot copy it, so the
   dialog showing that history entry keeps its old image. Three dialogs,
   slides 1, 2, 1, 2 with a capture on every slide passed: the history is
   [c, b, a], but the third dialog still shows nothing.
   */
  lemma RevisitedSlideGoesStale(s: State, a: Frame, b: Frame, c: Frame)
    requires s.connected && s.captureArmed && s.current == 1
    requires s.cache == map[1 := a] && s.history == [] && s.disposed == {}
    requires s.shown == [None, None, None]
    requires a != b && a != c && b != c
    ensures var t := Run(s, [SlideChanged(2), CaptureTick(Captured(2, b)), SlideChanged(1),
                             CaptureTick(Captured(1, c)), SlideChanged(2)], 3);
      && t.history == [c, b, a]
      && a in t.disposed
      && t.shown == [Some(c), Some(b), None]
  {
    var t1 := NextSlide(s, 2, 3);
    var t2 := Capture(t1, Captured(2, b));
    var t3 := NextSlide(t2, 1, 3);
    var t4 := Capture(t3, Captured(1, c));
    StaleSteps(s, a, b);
    StaleLastSteps(t3, a, b, c);
    RunFive(s, SlideChanged(2), CaptureTick(Captured(2, b)), SlideChanged(1),
            CaptureTick(Captured(1, c)), SlideChanged(2), 3);
    assert Apply(s, SlideChanged(2), 3) == t1 && Apply(t1, CaptureTick(Captured(2, b)), 3) == t2;
    assert Apply(t2, SlideChanged(1), 3) == t3 && Apply(t3, CaptureTick(Captured(1, c)), 3) == t4;
    assert Apply(t4, SlideChanged(2), 3) == NextSlide(t4, 2, 3);
  }

  /** The first three events: slides 1, 2, 1 with slide 2 captured. */
  lemma StaleSteps(s: State, a: Frame, b: Frame)
    requires s.connected && s.captureArmed && s.current == 1
    requires s.cache == map[1 := a] && s.history == [] && s.disposed == {}
    requires s.shown == [None, None, None]
    ensures NextSlide(s, 2, 3).captureArmed && NextSlide(s, 2, 3).connected
    ensures var t := NextSlide(Capture(NextSlide(s, 2, 3), Captured(2, b)), 1, 3);
      && t.connected && t.captureArmed && t.current == 1
      && t.cache == map[1 := a, 2 := b] && t.history == [b, a] && t.disposed == {}
      && t.shown == [Some(b), Some(a), None]
  {
    var t1 := NextSlide(s, 2, 3);
    assert t1.history == [a] && t1.current == 2 && t1.cache == s.cache && t1.disposed == {};
    assert t1.shown == [Some(a), None, None];
    var t2 := Capture(t1, Captured(2, b));
    assert t2.cache == map[1 := a, 2 := b] && t2.history == [a] && t2.disposed == {};
    var t3 := NextSlide(t2, 1, 3);
    assert t3.history == [b, a] && t3.current == 1;
  }

  /** The last two events: slide 1 recaptured, then slide 2 again. */
  lemma StaleLastSteps(t: State, a: Frame, b: Frame, c: Frame)
    requires t.connected && t.captureArmed && t.current == 1
    requires t.cache == map[1 := a, 2 := b] && t.history == [b, a] && t.disposed == {}
    requires t.shown == [Some(b), Some(a), None]
    requires a != b && a != c && b != c
    ensures Capture(t, Captured(1, c)).disposed == {a}
    ensures var r := NextSlide(Capture(t, Captured(1, c)), 2, 3);
      && r.history == [c, b, a]
      && a in r.disposed
      && r.shown == [Some(c), Some(b), None]
  {
    var t4 := Capture(t, Captured(1, c));
    assert t4.cache == map[1 := c, 2 := b] && t4.history == [b, a] && t4.disposed == {a};
    assert t4.shown == t.shown && t4.current == 1;
    var t5 := NextSlide(t4, 2, 3);
    assert t5.history == [c, b, a] && t5.disposed == {a};
  }

  lemma RunFive(s: State, e1: Event, e2: Event, e3: Event, e4: Event, e5: Event, capacity: nat)
    ensures Run(s, [e1, e2, e3, e4, e5], capacity)
         == Apply(Apply(Apply(Apply(Apply(s, e1, capacity), e2, capacity), e3, capacity), e4, capacity), e5, capacity)
  {
    var u1 := Apply(s, e1, capacity);
    var u2 := Apply(u1, e2, capacity);
    var u3 := Apply(u2, e3, capacity);
    var u4 := Apply(u3, e4, capacity);
    RunCons(s, [e1, e2, e3, e4, e5], capacity);
    assert [e1, e2, e3, e4, e5][1..] == [e2, e3, e4, e5];
    RunCons(u1, [e2, e3, e4, e5], capacity);
    assert [e2, e3, e4, e5][1..] == [e3, e4, e5];
    RunCons(u2, [e3, e4, e5], capacity);
    assert [e3, e4, e5][1..] == [e4, e5];
    RunCons(u3, [e4, e5], capacity);
    assert [e4, e5][1..] == [e5];
    RunCons(u4, [e5], capacity);
    assert [e5][1..] == [];
  }

  // ---------------------------------------------------------------------------
  // Reported statuses

  function LivenessTicks(n: nat, found: bool, probeOk: bool): seq<Event>
  {
    seq(n, _ => LivenessTick(found, probeOk))
  }

  function Repeat(st: Status, n: nat): seq<Status>
  {
    seq(n, _ => st)
  }

  /**
   While no host can be found (and a held instance no longer answers), the
   first liveness tick drops the connection and every tick reports
   Disconnected: twice when no instance is held (once from the failed
   connect, once from probing the missing instance), so the status is
   reported again and again rather than once.
   */
  lemma {:induction false} AbsentHostTicks(s: State, n: nat, capacity: nat)
    ensures var t := Run(s, LivenessTicks(n, false, false), capacity);
      && (n > 0 ==> !t.connected && !t.captureArmed)
      && t.log == s.log + Repeat(Disconnected, if n == 0 then 0 else if s.connected then 2 * n - 1 else 2 * n)
      && t == s.(connected := t.connected, captureArmed := t.captureArmed, log := t.log)
    decreases n
  {
    if n > 0 {
      var es := LivenessTicks(n, false, false);
      var u := Apply(s, es[0], capacity);
      assert es[1..] == LivenessTicks(n - 1, false, false);
      AbsentHostTicks(u, n - 1, capacity);
      var m := if n == 1 then 0 else 2 * (n - 1);
      var first := if s.connected then [Disconnected] else [Disconnected, Disconnected];
      assert u.log == s.log + first;
      assert first + Repeat(Disconnected, m) == Repeat(Disconnected, |first| + m);
    }
  }
}
