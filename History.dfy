/**
 The pure parts of the history buffer and of the dialog refresh: which slide
 the presentation has just left, how a promoted frame enters the bounded
 most-recent-first history, and what each history dialog shows afterwards.
 */
module History {
  import opened Types

  /**
   The slide the presentation has just left, guessed from the direction of
   travel: moving backwards (to a lower index) means the previous slide is
   the next higher one, otherwise it is the next lower one.
   */
  function PreviousIndex(current: int, index: int): (p: int)
    // the guess is always a neighbour of the new slide ...
    ensures p == index - 1 || p == index + 1
    // ... on the side the presentation came from ...
    ensures p > index <==> current > index
    // ... and it is the slide really left exactly when the move was one step
    ensures p == current <==> (index == current + 1 || index == current - 1)
  {
    if current > index then index + 1 else index - 1
  }

  /** The first n elements of s (all of s when it is shorter). */
  function Take<T>(s: seq<T>, n: nat): (r: seq<T>)
    ensures |r| == if |s| <= n then |s| else n
    ensures r <= s
  {
    if |s| <= n then s else s[..n]
  }

  /**
   The history after frame is inserted at the front and, when that makes the
   list longer than capacity, its last entry is removed.
   */
  function Promote(history: seq<Frame>, frame: Frame, capacity: nat): (r: seq<Frame>)
    // below capacity nothing is removed
    ensures |history| < capacity ==> r == [frame] + history
    // at or over capacity exactly the last entry of the grown list is removed
    ensures |history| >= capacity ==> r + [([frame] + history)[|history|]] == [frame] + history
    ensures |history| <= capacity ==> |r| <= capacity
    // the new frame leads and earlier entries move one place back
    ensures |r| > 0 ==> r[0] == frame
    ensures forall i :: 0 < i < |r| ==> r[i] == history[i - 1]
  {
    var grown := [frame] + history;
    if |grown| > capacity then grown[..|grown| - 1] else grown
  }

  /** The entry Promote removes (and the source disposes), if any. */
  function Evicted(history: seq<Frame>, frame: Frame, capacity: nat): (e: Option<Frame>)
    ensures e.Some? <==> |history| >= capacity
    ensures e.Some? ==> Promote(history, frame, capacity) + [e.value] == [frame] + history
    ensures e.Some? && |history| > 0 ==> e.value == history[|history| - 1]
  {
    var grown := [frame] + history;
    if |grown| > capacity then Some(grown[|grown| - 1]) else None
  }

  /** With a bounded history, promoting is taking a prefix of the grown list. */
  lemma PromoteIsTake(history: seq<Frame>, frame: Frame, capacity: nat)
    requires |history| <= capacity
    ensures Promote(history, frame, capacity) == Take([frame] + history, capacity)
  {
  }

  /** What n freshly created dialogs show: nothing. */
  function Blank(n: nat): (r: seq<Option<Frame>>)
    ensures |r| == n && forall i :: 0 <= i < n ==> r[i] == None
  {
    seq(n, _ => None)
  }

  /**
   The images the history dialogs show after a refresh: dialog i takes a copy
   of history entry i when there is one; it keeps its previous image when
   there is none, or when copying fails because that entry's image has been
   disposed (the refresh swallows the exception).
   */
  function Mirror(shown: seq<Option<Frame>>, history: seq<Frame>, disposed: set<Frame>): (r: seq<Option<Frame>>)
    ensures |r| == |shown|
    ensures forall i :: 0 <= i < |r| && i < |history| && history[i] !in disposed ==> r[i] == Some(history[i])
    ensures forall i :: 0 <= i < |r| && |history| <= i ==> r[i] == shown[i]
    ensures forall i :: 0 <= i < |r| && i < |history| && history[i] in disposed ==> r[i] == shown[i]
  {
    seq(|shown|, i requires 0 <= i < |shown| =>
      if i < |history| && history[i] !in disposed then Some(history[i]) else shown[i])
  }

  /** Refreshing twice from the same history shows the same as refreshing once. */
  lemma MirrorIdempotent(shown: seq<Option<Frame>>, history: seq<Frame>, disposed: set<Frame>)
    ensures Mirror(Mirror(shown, history, disposed), history, disposed) == Mirror(shown, history, disposed)
  {
  }

  /** Refreshing from an empty history leaves every dialog as it was. */
  lemma MirrorOfEmpty(shown: seq<Option<Frame>>, disposed: set<Frame>)
    ensures Mirror(shown, [], disposed) == shown
  {
  }

  /**
   When no history entry is disposed and there is at least one entry per
   dialog, every dialog shows its history entry, whatever it showed before.
   */
  lemma MirrorShowsHistory(shown: seq<Option<Frame>>, history: seq<Frame>, disposed: set<Frame>)
    requires |shown| <= |history|
    requires forall i :: 0 <= i < |history| ==> history[i] !in disposed
    ensures Mirror(shown, history, disposed) == seq(|shown|, i requires 0 <= i < |shown| => Some(history[i]))
  {
  }
}
