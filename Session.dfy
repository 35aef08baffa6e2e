/**
 The slide-history engine as a pure state machine: one transition function
 per event handler of the PowerPoint class. The class's methods are proved
 to change its fields exactly as these functions say.
 */
module Session {
  import opened Types
  import opened History

  /** Everything the engine keeps, as a value. */
  datatype State = State(
    connected: bool,             // a presentation host instance is held
    captureArmed: bool,          // the capture timer is enabled
    cache: map<int, Frame>,      // latest screenshot per slide index
    history: seq<Frame>,         // history entries, most recent first
    current: int,                // last slide index seen by the slide-changed handler
    disposed: set<Frame>,        // screenshots that have been disposed
    shown: seq<Option<Frame>>,   // the image each history dialog shows
    log: seq<Status>)            // statuses reported so far, oldest first

  /** The engine with one history dialog per slot of capacity. */
  ghost predicate Valid(s: State, capacity: nat)
  {
    |s.history| <= capacity && |s.shown| == capacity
  }

  /** The state right after construction: disconnected, not capturing, dialogs blank. */
  function Initial(capacity: nat): (s: State)
    ensures Valid(s, capacity)
    ensures forall i :: 0 <= i < capacity ==> s.shown[i] == None
  {
    State(false, false, map[], [], 1, {}, Blank(capacity), [])
  }

  /**
   A connect attempt; found says whether a running host was found and its
   events subscribed. The capture timer is left as it was.
   */
  function Initialize(s: State, found: bool): (r: (State, bool))
    ensures r.1 == found && r.0.connected == found
    ensures r.0.log == s.log + [if found then Connected else Disconnected]
    ensures r.0 == s.(connected := found, log := r.0.log)
  {
    if found then (s.(connected := true, log := s.log + [Connected]), true)
    else (s.(connected := false, log := s.log + [Disconnected]), false)
  }

  /**
   One tick of the liveness timer. Without an instance it first tries to
   connect; then it probes the instance, which always fails when there is
   none. probeOk says whether probing a held instance succeeds.
   */
  function Poll(s: State, found: bool, probeOk: bool): (r: State)
    ensures r.connected == ((s.connected || found) && probeOk)
    ensures !r.connected ==> !r.captureArmed
    ensures r.connected ==> r.captureArmed == s.captureArmed
    ensures r.log == s.log
                     + (if s.connected then [] else [if found then Connected else Disconnected])
                     + (if r.connected then [] else [Disconnected])
    ensures r == s.(connected := r.connected, captureArmed := r.captureArmed, log := r.log)
  {
    var t := if s.connected then s else Initialize(s, found).0;
    if t.connected && probeOk then t
    else t.(captureArmed := false, connected := false, log := t.log + [Disconnected])
  }

  /** One tick of the capture timer with the given outcome. */
  function Capture(s: State, o: CaptureOutcome): (r: State)
    // with no instance the tick only disarms capture
    ensures !s.connected ==> r == s.(captureArmed := false)
    // a new frame replaces the entry of its slide, disposing the one it replaces
    ensures s.connected && o.Captured? ==>
      && r.cache.Keys == s.cache.Keys + {o.slideIndex}
      && r.cache[o.slideIndex] == o.frame
      && (forall k :: k in s.cache && k != o.slideIndex ==> r.cache[k] == s.cache[k])
      && r.disposed == (if o.slideIndex in s.cache then s.disposed + {s.cache[o.slideIndex]} else s.disposed)
      && r == s.(cache := r.cache, disposed := r.disposed)
    // losing the host disarms capture and reports it
    ensures s.connected && IsDisconnect(o) ==> r == s.(captureArmed := false, log := s.log + [Disconnected])
    // any other failure changes nothing
    ensures s.connected && !o.Captured? && !IsDisconnect(o) ==> r == s
  {
    if !s.connected then s.(captureArmed := false)
    else match o
      case Captured(slideIndex, frame) =>
        var disposed := if slideIndex in s.cache then s.disposed + {s.cache[slideIndex]} else s.disposed;
        s.(cache := s.cache[slideIndex := frame], disposed := disposed)
      case InvalidComObject =>
        s.(captureArmed := false, log := s.log + [Disconnected])
      case Failed(hresult) =>
        if hresult == NoInterfaceHResult then s.(captureArmed := false, log := s.log + [Disconnected])
        else s
  }

  /** The host starts a slide show: empty the cache, arm capture, restart at slide 1. */
  function BeginSession(s: State): State
  {
    s.(cache := map[], captureArmed := true, current := 1)
  }

  /**
   Beginning a slide show arms capture with an empty cache at slide 1, and
   keeps the history, the dialogs and the connection as they were.
   */
  lemma BeginSessionEffect(s: State)
    ensures var r := BeginSession(s);
      && r.captureArmed && r.cache == map[] && r.current == 1
      && r.history == s.history && r.shown == s.shown && r.connected == s.connected
      && r == s.(cache := r.cache, captureArmed := r.captureArmed, current := r.current)
  {
  }

  /** The host ends a slide show: disarm capture only. */
  function EndSession(s: State): State
  {
    s.(captureArmed := false)
  }

  /** Ending a slide show disarms capture and changes nothing else. */
  lemma EndSessionEffect(s: State)
    ensures !EndSession(s).captureArmed
    ensures EndSession(s) == s.(captureArmed := false)
  {
  }

  /**
   The first part of a slide change: guess the slide just left, remember
   index, and promote the cached frame of the slide left (if there is one),
   disposing the entry that falls off the end.
   */
  function Advance(s: State, index: int, capacity: nat): (r: State)
    ensures r.current == index
    // nothing cached for the slide left: history and disposal unchanged
    ensures PreviousIndex(s.current, index) !in s.cache ==> r.history == s.history && r.disposed == s.disposed
    // otherwise its frame is promoted, and an evicted entry is disposed
    ensures PreviousIndex(s.current, index) in s.cache ==>
      var e := Evicted(s.history, s.cache[PreviousIndex(s.current, index)], capacity);
      && r.history == Promote(s.history, s.cache[PreviousIndex(s.current, index)], capacity)
      && r.disposed == if e.Some? then s.disposed + {e.value} else s.disposed
    ensures |s.history| <= capacity ==> |r.history| <= capacity
    ensures r == s.(current := index, history := r.history, disposed := r.disposed)
  {
    var previousIndex := PreviousIndex(s.current, index);
    if previousIndex in s.cache then
      var frame := s.cache[previousIndex];
      var e := Evicted(s.history, frame, capacity);
      s.(current := index,
         history := Promote(s.history, frame, capacity),
         disposed := if e.Some? then s.disposed + {e.value} else s.disposed)
    else s.(current := index)
  }

  /** The dialogs refresh from the history. */
  function Refresh(s: State): State
  {
    s.(shown := Mirror(s.shown, s.history, s.disposed))
  }

  /**
   After a refresh every dialog with an undisposed history entry shows that
   entry, every other dialog keeps its image, and nothing else changes.
   */
  lemma RefreshShows(s: State)
    ensures var r := Refresh(s);
      && |r.shown| == |s.shown|
      && (forall i :: 0 <= i < |r.shown| && i < |s.history| && s.history[i] !in s.disposed ==>
            r.shown[i] == Some(s.history[i]))
      && (forall i :: 0 <= i < |r.shown| && (|s.history| <= i || s.history[i] in s.disposed) ==>
            r.shown[i] == s.shown[i])
      && r == s.(shown := r.shown)
  {
  }

  /** The host moved to slide index: advance, then refresh the dialogs. */
  function NextSlide(s: State, index: int, capacity: nat): (r: State)
    ensures Valid(s, capacity) ==> Valid(r, capacity)
  {
    Refresh(Advance(s, index, capacity))
  }
}
