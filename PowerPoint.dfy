/**
 The PowerPoint class: the slide-history engine. It holds the connection to
 the presentation host, the capture timer's state, the per-slide screenshot
 cache, the most-recent-first history list and the history dialogs. Each
 timer tick and each host event is a method the environment calls; each
 method changes the fields exactly as the matching function of module
 Session says.
 */
module SlideShowHistory {
  import opened Types
  import opened History
  import Session

  /** A window on one secondary monitor that shows one history entry. */
  class HistoryDialog {
    var backgroundImage: Option<Frame>

    constructor ()
      ensures backgroundImage == None
    {
      backgroundImage := None;
    }
  }

  ghost predicate Distinct(ds: seq<HistoryDialog>)
  {
    forall i, j :: 0 <= i < j < |ds| ==> ds[i] != ds[j]
  }

  /** The image each dialog shows, in dialog order. */
  ghost function Images(ds: seq<HistoryDialog>): (r: seq<Option<Frame>>)
    reads ds
    ensures |r| == |ds| && forall i :: 0 <= i < |ds| ==> r[i] == ds[i].backgroundImage
  {
    seq(|ds|, i reads ds requires 0 <= i < |ds| => ds[i].backgroundImage)
  }

  class PowerPoint {
    var connected: bool                      // powerpointInstance != null
    var captureArmed: bool                   // screenshotTimer.Enabled
    const livenessArmed: bool                // isActiveTimer.Enabled, never cleared
    var slideScreenshots: map<int, Frame>
    var screenshotList: seq<Frame>           // most recent first
    var historyDialogs: seq<HistoryDialog>
    const screenCount: nat                   // number of history dialogs
    var currentScreenIndex: int
    var disposed: set<Frame>                 // screenshots whose Dispose has been called
    ghost var shown: seq<Option<Frame>>      // the image each dialog shows
    ghost var statusLog: seq<Status>         // what StatusChanged has reported, oldest first

    /**
     The liveness timer is never stopped; one dialog per slot; the history
     fits the dialogs; shown is what the dialogs show.
     */
    ghost predicate Valid()
      reads this, historyDialogs
    {
      && livenessArmed
      && |historyDialogs| == screenCount
      && Distinct(historyDialogs)
      && |screenshotList| <= screenCount
      && shown == Images(historyDialogs)
    }

    /** The fields as a Session.State value. */
    ghost function Snapshot(): Session.State
      reads this
    {
      Session.State(connected, captureArmed, slideScreenshots, screenshotList,
                    currentScreenIndex, disposed, shown, statusLog)
    }

    constructor (screens: int)
      requires screens >= 0
      ensures Valid() && screenCount == screens
      ensures Snapshot() == Session.Initial(screens)
      ensures forall d :: d in historyDialogs ==> fresh(d)
    {
      screenCount := screens;
      slideScreenshots := map[];
      screenshotList := [];
      historyDialogs := [];
      connected := false;
      captureArmed := false;
      livenessArmed := true;
      currentScreenIndex := 1;
      disposed := {};
      shown := [];
      statusLog := [];
      new;
      UpdateHistoryDialogs();
    }

    /** Raises StatusChanged. */
    method OnStatusChanged(e: Status)
      modifies this`statusLog
      ensures statusLog == old(statusLog) + [e]
    {
      statusLog := statusLog + [e];
    }

    /**
     Creates the dialogs on the first call, then shows in dialog i a copy of
     history entry i for every entry there is.
     */
    method UpdateHistoryDialogs()
      requires |historyDialogs| == 0 || |historyDialogs| == screenCount
      requires Distinct(historyDialogs) && shown == Images(historyDialogs)
      modifies this`historyDialogs, this`shown, historyDialogs
      ensures |historyDialogs| == screenCount && Distinct(historyDialogs)
      ensures old(|historyDialogs|) != 0 ==> historyDialogs == old(historyDialogs)
      ensures forall d :: d in historyDialogs ==> d in old(historyDialogs) || fresh(d)
      ensures shown == Images(historyDialogs)
      ensures old(|historyDialogs|) == 0 ==> shown == Mirror(Blank(screenCount), screenshotList, disposed)
      ensures old(|historyDialogs|) == screenCount ==> Snapshot() == Session.Refresh(old(Snapshot()))
    {
      if |historyDialogs| == 0 {
        CreateHistoryDialogs();
      }
      ghost var before := Images(historyDialogs);
      ShowHistory();
      shown := Mirror(before, screenshotList, disposed);
    }

    /** The first call: one new, empty dialog per history slot. */
    method CreateHistoryDialogs()
      requires |historyDialogs| == 0
      modifies this`historyDialogs
      ensures |historyDialogs| == screenCount && Distinct(historyDialogs)
      ensures forall k :: 0 <= k < screenCount ==> fresh(historyDialogs[k])
      ensures Images(historyDialogs) == Blank(screenCount)
    {
      var i := 0;
      while i < screenCount
        invariant 0 <= i <= screenCount
        invariant |historyDialogs| == i && Distinct(historyDialogs)
        invariant forall k :: 0 <= k < i ==> fresh(historyDialogs[k]) && historyDialogs[k].backgroundImage == None
      {
        var dialog := new HistoryDialog();
        historyDialogs := historyDialogs + [dialog];
        i := i + 1;
      }
    }

    /**
     Dialog i gets a copy of history entry i for every entry there is;
     copying a disposed image throws, and the exception is swallowed.
     */
    method ShowHistory()
      requires |historyDialogs| == screenCount && Distinct(historyDialogs)
      modifies historyDialogs
      ensures Images(historyDialogs) == Mirror(old(Images(historyDialogs)), screenshotList, disposed)
    {
      ghost var before := Images(historyDialogs);
      ghost var after := Mirror(before, screenshotList, disposed);
      var i := 0;
      while i < screenCount
        invariant 0 <= i <= screenCount
        invariant forall k :: 0 <= k < i ==> historyDialogs[k].backgroundImage == after[k]
        invariant forall k :: i <= k < screenCount ==> historyDialogs[k].backgroundImage == before[k]
      {
        if |screenshotList| > i {
          if screenshotList[i] !in disposed {
            historyDialogs[i].backgroundImage := Some(screenshotList[i]);
          }
        }
        i := i + 1;
      }
      assert Images(historyDialogs) == after;
    }

    /** Tick of the liveness timer; probeOk says whether probing a held instance succeeds. */
    method IsActiveTimerElapsed(found: bool, probeOk: bool)
      requires Valid()
      modifies this
      ensures Valid() && historyDialogs == old(historyDialogs)
      ensures Snapshot() == Session.Poll(old(Snapshot()), found, probeOk)
    {
      if !connected {
        var ok := InitializePowerpoint(found);
      }
      // the probe dereferences the instance, so it throws when there is none
      if !connected || !probeOk {
        captureArmed := false;
        connected := false;
        OnStatusChanged(Disconnected);
      }
    }

    /** Tick of the capture timer, which only fires while enabled. */
    method ScreenshotCapture(outcome: CaptureOutcome)
      requires Valid() && captureArmed
      // a captured image is a new image
      requires outcome.Captured? ==>
        outcome.frame !in disposed && outcome.frame !in slideScreenshots.Values && outcome.frame !in screenshotList
      modifies this
      ensures Valid() && historyDialogs == old(historyDialogs)
      ensures Snapshot() == Session.Capture(old(Snapshot()), outcome)
    {
      if !connected {
        captureArmed := false;
        return;
      }
      match outcome {
        case Captured(slideIndex, frame) =>
          if slideIndex in slideScreenshots {
            var previous := slideScreenshots[slideIndex];
            slideScreenshots := slideScreenshots[slideIndex := frame];
            disposed := disposed + {previous};
          } else {
            slideScreenshots := slideScreenshots[slideIndex := frame];
          }
        case InvalidComObject =>
          captureArmed := false;
          OnStatusChanged(Disconnected);
        case Failed(hresult) =>
          if hresult == NoInterfaceHResult {
            captureArmed := false;
            OnStatusChanged(Disconnected);
          }
      }
    }

    /**
     Connect attempt; found says whether a running host was found (and its
     events subscribed) without an exception.
     */
    method InitializePowerpoint(found: bool) returns (ok: bool)
      requires Valid()
      modifies this
      ensures Valid() && historyDialogs == old(historyDialogs)
      ensures (Snapshot(), ok) == Session.Initialize(old(Snapshot()), found)
    {
      if found {
        connected := true;
        OnStatusChanged(Connected);
        return true;
      }
      OnStatusChanged(Disconnected);
      connected := false;
      return false;
    }

    method SlideShowEnd()
      requires Valid()
      modifies this
      ensures Valid() && historyDialogs == old(historyDialogs)
      ensures Snapshot() == Session.EndSession(old(Snapshot()))
    {
      captureArmed := false;
    }

    method SlideShowBegin()
      requires Valid()
      modifies this
      ensures Valid() && historyDialogs == old(historyDialogs)
      ensures Snapshot() == Session.BeginSession(old(Snapshot()))
    {
      slideScreenshots := map[];
      captureArmed := true;
      currentScreenIndex := 1;
    }

    /** The host moved to slide index. */
    method SlideShowNextSlide(index: int)
      requires Valid()
      modifies this, historyDialogs
      ensures Valid() && historyDialogs == old(historyDialogs)
      ensures currentScreenIndex == index
      ensures Snapshot() == Session.NextSlide(old(Snapshot()), index, screenCount)
    {
      PromotePrevious(index);
      UpdateHistoryDialogs();
    }

    /**
     The first part of the slide-changed handler: insert the cached frame of
     the slide just left at the front of the history, dropping (and
     disposing) the oldest entry when the history outgrows the dialogs.
     */
    method PromotePrevious(index: int)
      requires Valid()
      modifies this`currentScreenIndex, this`screenshotList, this`disposed
      ensures Valid()
      ensures Snapshot() == Session.Advance(old(Snapshot()), index, screenCount)
    {
      var previousIndex := PreviousIndex(currentScreenIndex, index);
      currentScreenIndex := index;
      if previousIndex in slideScreenshots {
        var screen := slideScreenshots[previousIndex];
        screenshotList := [screen] + screenshotList;
        if |screenshotList| > screenCount {
          disposed := disposed + {screenshotList[|screenshotList| - 1]};
          screenshotList := screenshotList[..|screenshotList| - 1];
        }
      }
    }
  }
}
