# SlideShowHistory engine in Dafny

This project models the `PowerPoint` class of SlideShowHistory. The class
watches a running PowerPoint slide show and keeps one screenshot per slide.
It also keeps a bounded history of the slides the presenter has left, with
the most recent first, and shows that history on extra monitors. Each
history dialog shows one entry.

The model is split into five modules:

- `Types` holds the shared values.
  - Images are opaque `Frame` tokens.
  - The reported `Status` is `Connected` or `Disconnected`.
  - `CaptureOutcome` is what one capture tick observes: a slide index with a
    new image, an `InvalidComObjectException`, or another exception with its
    HResult. `NoInterfaceHResult` is -2147467262, which is E_NOINTERFACE
    (0x80004002).
- `History` holds the pure parts of the slide-changed handler and of the
  dialog refresh:
  - `PreviousIndex`: the direction-of-travel guess for the slide just left.
  - `Promote` and `Evicted`: insertion at the front of the bounded history,
    and the entry that falls off the end.
  - `Mirror`: what each dialog shows after a refresh.
- `Session` is the whole engine as a value (`State`), with one transition
  function per handler.
- `SlideShowHistory` is the imperative model of the C# class.
  - `PowerPoint` is a Dafny class with the same fields.
  - `HistoryDialog` is a class whose `backgroundImage` is updated in place.
  - Each method is proved to change the fields exactly as the matching
    `Session` function says, through the ghost `Snapshot()`.
  - The methods also keep the class invariant `Valid()`.
- `Traces` folds events over `Session` and proves properties of whole runs.
  The events are timer ticks, slide show events and the tray menu's connect
  request.

The environment is modelled as parameters:

- `found` says whether `GetActiveObject` produced an instance whose events
  could be subscribed.
- `probeOk` says whether reading `Active` on a held instance succeeds.
- A capture tick's outcome is a `CaptureOutcome`.
- A screenshot is a token that the caller guarantees is new.

Disposal is tracked as a set of disposed tokens. In the source, copying a
disposed image throws, and the dialog refresh swallows that exception, so
the model keeps the dialog's previous image in that case.

### Where the code and its description differ (the model follows the code)

- The liveness probe does not tell a busy host from a dead one. Any
  exception from `powerpointInstance.Active` disarms capture, drops the
  instance and reports DISCONNECTED (PowerPoint.cs:65-75).
- When no instance is held and the connect attempt fails, the tick reports
  DISCONNECTED twice:
  - `InitializePowerpoint` reports it once (line 187).
  - Dereferencing the null instance then throws, and the catch reports it
    again (lines 67, 74).

  `Traces.AbsentHostTicks` proves the exact count.
- `SlideShowBegin` clears the per-slide cache but not the history list
  (lines 198-203).
- A failed `InitializePowerpoint` does not disarm capture (lines 187-190).
  The next capture tick then only disarms it (lines 125-129); see
  `Traces.FailedConnectLeavesCaptureArmed`.
- A disconnect seen by the capture tick disarms capture and reports
  DISCONNECTED, but keeps the instance (lines 147-158).
- The number of history dialogs is the number of monitors minus two
  (Program.cs:32).
- The design says dialog i shows history entry i after every refresh. The
  code breaks this during ordinary back-and-forth navigation:
  - Recapturing a revisited slide disposes its old cached image (line 140),
    and the history still holds that same image object.
  - The next refresh's `new Bitmap` of that image throws (line 109).
  - The exception is swallowed (lines 114-117), so the dialog keeps its
    previous image.

  `Traces.RevisitedSlideGoesStale` shows this with three dialogs and slides
  1, 2, 1, 2 with a capture on each slide passed. The history ends as
  `[c, b, a]`, but the third dialog still shows nothing.
- A dropped instance keeps its event subscriptions (lines 72-74 never undo
  lines 174-176). A host whose probe failed but is still alive can
  therefore begin a slide show and re-arm capture while no instance is
  held (lines 200-201); see `Traces.ProbeDropThenBeginRearms`.

### Why each handler appears twice

Each handler appears twice on purpose:

- once as a pure `Session` function, which the run lemmas in `Traces`
  reason with;
- once as an imperative method of `SlideShowHistory.PowerPoint`, which
  keeps the source's in-place updates.

Each method's contract is the statement that it computes that function on
the snapshot of its fields. Frame clauses such as the last `ensures` of
`Session.Initialize` ("nothing else changes") restate the updated fields,
because for a state change that is what there is to say.

## Model

| member | source | states |
|---|---|---|
| History.PreviousIndex | SlideShowHistory/PowerPoint.cs:211 | The guess for the slide just left. It is always a neighbour of the new slide, on the side the show came from. It equals the slide really left exactly when the move was one step. |
| History.Promote | SlideShowHistory/PowerPoint.cs:214-221 | The frame leads the new history, and older entries move back one place. Below capacity nothing is removed. At or over capacity exactly the last entry of the grown list is removed. A history within capacity stays within it. |
| History.Evicted | SlideShowHistory/PowerPoint.cs:217-220 | An entry is removed exactly when the history is at capacity. The removed entry is the old last one, and the new history followed by it equals the grown list. |
| History.PromoteIsTake | SlideShowHistory/PowerPoint.cs:214-221 | With a bounded history, insert-then-trim is the first capacity entries of the grown list. |
| History.Blank | SlideShowHistory/PowerPoint.cs:86-98 | Newly created dialogs show nothing. |
| History.Mirror | SlideShowHistory/PowerPoint.cs:101-119 | After a refresh, dialog i shows history entry i when that entry exists and is not disposed. It keeps its image when there is no entry i, or when copying the disposed entry throws and the exception is swallowed. |
| History.MirrorIdempotent | SlideShowHistory/PowerPoint.cs:101-119 | Refreshing twice from the same history shows the same as refreshing once. |
| History.MirrorOfEmpty | SlideShowHistory/PowerPoint.cs:104 | With an empty history, a refresh changes no dialog. |
| History.MirrorShowsHistory | SlideShowHistory/PowerPoint.cs:101-119 | With at least one undisposed entry per dialog, every dialog shows its entry, whatever it showed before. |
| Session.Initial | SlideShowHistory/PowerPoint.cs:38-56 | After construction the engine is disconnected and not capturing, with an empty cache and history, at slide 1, and with every dialog blank. |
| Session.Initialize | SlideShowHistory/PowerPoint.cs:162-191 | A connect attempt succeeds exactly when a host is found. It reports CONNECTED or DISCONNECTED accordingly. It changes nothing else, and in particular leaves capture armed after a failure. |
| Session.Poll | SlideShowHistory/PowerPoint.cs:58-76 | After a liveness tick the engine is connected exactly when it held or found an instance and the probe succeeded. A drop disarms capture. The log gains the connect attempt's report and then DISCONNECTED on a drop. Nothing else changes. |
| Session.Capture | SlideShowHistory/PowerPoint.cs:122-160 | A capture tick has four cases. Without an instance it only disarms. A captured frame replaces its slide's entry, keeps every other entry and disposes the replaced frame. InvalidComObject or HResult E_NOINTERFACE disarms and reports DISCONNECTED. Any other failure changes nothing. |
| Session.Advance | SlideShowHistory/PowerPoint.cs:205-222 | The current index becomes the new slide. If the slide left has no cached frame, history and disposal are unchanged. Otherwise its frame is promoted and the evicted entry is disposed. The history stays within capacity, and no other field changes. |
| Session.BeginSessionEffect | SlideShowHistory/PowerPoint.cs:198-203 | Beginning a slide show arms capture, empties the cache and restarts at slide 1. It keeps the history, the dialogs and the connection. |
| Session.EndSessionEffect | SlideShowHistory/PowerPoint.cs:193-196 | Ending a slide show disarms capture and changes nothing else. |
| Session.RefreshShows | SlideShowHistory/PowerPoint.cs:101-119 | After a refresh, every dialog with an undisposed history entry shows that entry. Every other dialog keeps its image, and nothing else changes. |
| Session.NextSlide | SlideShowHistory/PowerPoint.cs:205-225 | A slide change keeps the history within the dialog count and keeps one shown image per dialog. |
| Traces.RunPreservesValid | SlideShowHistory/PowerPoint.cs:214-221 | No sequence of events lets the history outgrow the dialogs or changes the number of shown images. |
| Traces.ForwardRun | SlideShowHistory/PowerPoint.cs:205-225 | Moving forward k slides one at a time, with every slide passed cached, ends at slide current + k. The history becomes the frames of the slides left, most recent first, in front of the old history, cut to capacity. |
| Traces.SlidesHistory | SlideShowHistory/PowerPoint.cs:211-221 | The same statement for a chain of slide changes written directly as successive transitions (the inductive core of ForwardRun). |
| Traces.RunForward | SlideShowHistory/PowerPoint.cs:205-225 | Running the events of a forward walk is the same as applying the slide-changed transition once per slide. |
| Traces.FourSlidesTwoDialogs | SlideShowHistory/PowerPoint.cs:205-225 | With two dialogs and slides 1 to 4 shown in order, where slides 1 to 3 were captured, the history ends as the frames of slides 3 and 2. |
| Traces.BackAndForth | SlideShowHistory/PowerPoint.cs:211-221 | Stepping back one slide and forward again promotes the slide left first and then the earlier one, so the history starts with the earlier slide, then the later one. |
| Traces.BackAndForthSteps | SlideShowHistory/PowerPoint.cs:211-221 | The same statement for two successive slide-changed transitions. |
| Traces.RunTwoSlides | SlideShowHistory/PowerPoint.cs:205-225 | Two slide-changed events are two slide-changed transitions in order. |
| Traces.ApplyFramesFrom | SlideShowHistory/PowerPoint.cs:135-145 | One event keeps every cached frame among the known captures, adding the captured frame. Every history entry stays captured or kept. |
| Traces.RunFramesFrom | SlideShowHistory/PowerPoint.cs:135-145 | The same holds over any run, where the known captures are the run's captured frames. |
| Traces.SessionStartProvenance | SlideShowHistory/PowerPoint.cs:198-203 | After a slide show begins, the cache holds only frames captured since. A history entry is captured since or was already in the history. A frame cached before the slide show began, and not already in the history, never reaches it. |
| Traces.ArmedOnlyWhileConnected | SlideShowHistory/PowerPoint.cs:122-129 | On runs the host drives, the capture timer is armed only while an instance is held. |
| Traces.FailedConnectLeavesCaptureArmed | SlideShowHistory/PowerPoint.cs:187-190 | A failed connect request drops the instance, but capture stays armed. The next capture tick only disarms it. |
| Traces.AbsentHostTicks | SlideShowHistory/PowerPoint.cs:58-76 | While no host is found and probes fail, n ticks leave the engine disconnected and not capturing. The log gains 2n DISCONNECTED reports (2n-1 when an instance was held), and nothing else changes. |
| Traces.ProbeDropThenBeginRearms | SlideShowHistory/PowerPoint.cs:65-75 | A failed probe on a connected, armed engine, followed by a slide show begin from the still-subscribed host, leaves capture armed with no instance held. |
| Traces.CaptureTickWhileDisarmed | SlideShowHistory/PowerPoint.cs:46-48 | While the capture timer is disabled it raises no tick, so the state is unchanged. |
| Traces.CaptureDisarmsExactlyOnDisconnect | SlideShowHistory/PowerPoint.cs:147-158 | While connected and armed, a capture tick disarms capture, and reports DISCONNECTED, exactly when the outcome is InvalidComObject or HResult E_NOINTERFACE. Otherwise the log is unchanged. |
| Traces.RevisitedSlideGoesStale | SlideShowHistory/PowerPoint.cs:104-117 | Three dialogs, slides 1, 2, 1, 2 with a capture on each slide passed: the history is `[c, b, a]` and frame a is disposed. The third dialog therefore still shows nothing instead of a. |
| Traces.StaleSteps | SlideShowHistory/PowerPoint.cs:205-225 | The first three events of that run: the history becomes `[b, a]`, shown in the first two dialogs. |
| Traces.StaleLastSteps | SlideShowHistory/PowerPoint.cs:135-141 | The last two events of that run: recapturing slide 1 disposes a. The refresh then shows c and b but keeps the third dialog's old image. |
| Traces.RunFive | SlideShowHistory/PowerPoint.cs:58-225 | A run of five events is the five handlers applied in order. |
| SlideShowHistory.HistoryDialog.constructor | SlideShowHistory/PowerPoint.cs:91 | A new dialog shows no image. |
| SlideShowHistory.PowerPoint.constructor | SlideShowHistory/PowerPoint.cs:38-56 | The new object is in the Session.Initial state, with screens new dialogs and the liveness timer armed. |
| SlideShowHistory.PowerPoint.OnStatusChanged | SlideShowHistory/PowerPoint.cs:78-81 | The reported status is appended to the log. |
| SlideShowHistory.PowerPoint.UpdateHistoryDialogs | SlideShowHistory/PowerPoint.cs:83-120 | The first call creates one dialog per slot. Every call then leaves the dialogs showing Mirror of what they showed, so on later calls the new state is Session.Refresh of the old one. |
| SlideShowHistory.PowerPoint.CreateHistoryDialogs | SlideShowHistory/PowerPoint.cs:86-99 | Creates screenCount distinct new dialogs, all blank. |
| SlideShowHistory.PowerPoint.ShowHistory | SlideShowHistory/PowerPoint.cs:101-119 | The images of the dialogs become Mirror of their old images: the loop updates the dialog objects in place. |
| SlideShowHistory.PowerPoint.IsActiveTimerElapsed | SlideShowHistory/PowerPoint.cs:58-76 | The new state is Session.Poll of the old one, and the invariant is kept. |
| SlideShowHistory.PowerPoint.ScreenshotCapture | SlideShowHistory/PowerPoint.cs:122-160 | The new state is Session.Capture of the old one, and the invariant is kept. |
| SlideShowHistory.PowerPoint.InitializePowerpoint | SlideShowHistory/PowerPoint.cs:162-191 | The new state and the result are Session.Initialize of the old state. |
| SlideShowHistory.PowerPoint.SlideShowEnd | SlideShowHistory/PowerPoint.cs:193-196 | Only the capture timer is disarmed. |
| SlideShowHistory.PowerPoint.SlideShowBegin | SlideShowHistory/PowerPoint.cs:198-203 | The cache is emptied, capture armed and the slide index reset to 1. The history is kept. |
| SlideShowHistory.PowerPoint.SlideShowNextSlide | SlideShowHistory/PowerPoint.cs:205-225 | The new state is Session.NextSlide of the old one, the dialogs are the same objects, and the invariant is kept. |
| SlideShowHistory.PowerPoint.PromotePrevious | SlideShowHistory/PowerPoint.cs:209-222 | The new state is Session.Advance of the old one. The history list is changed in place and stays within the dialog count. |

## Left out

- COM interop is left out because it is a foreign call. This covers
  `GetActiveObject`, `CleanCom`, the `Dispose` of the class and
  `ReleaseComObject`. Their outcome enters only as the `found` and
  `probeOk` parameters.
- A `GetActiveObject` that throws and one that returns null are merged
  into `found == false`, because both take the same path to line 187.
- Timers, their intervals and concurrency are left out. Each tick and each
  host event is one atomic method call, so overlapping handlers are not
  modelled.
- Image content, `Screenshot.CreateScreenshot` and the `new Bitmap` copy
  are left out because they are pixel work. A screenshot is a new token
  passed in. A dialog shows the token of the entry it copied.
- The dialog refresh's disposal of the dialog's old background copy
  (lines 111-112) is left out, because copies are never shared with the
  cache or the history.
- `Show()`, dialog positioning and Windows Forms are left out.
- Reading the slide index in the slide-changed handler (line 208) is
  assumed to succeed. An exception there is not modelled.
- `OnStatusChanged` with no subscriber (a null event, which throws) is not
  modelled. Program.cs subscribes right after construction.
- Program.cs's tray menu, the monitor count check and the icons are left
  out. Only the connect request appears, as an event in `Traces`.
- `Session.NextSlide`: its own contract only states that validity is
  preserved. The history change is stated on `Session.Advance` and the
  display change on `History.Mirror`.
- `Traces.ArmedOnlyWhileConnected` holds only on runs with two
  restrictions. A failed direct connect request must not occur, and a slide
  show must begin only while an instance is held. The source guarantees
  neither, and it breaks the property in both cases:
  - `Traces.FailedConnectLeavesCaptureArmed` shows the failed connect
    request.
  - `Traces.ProbeDropThenBeginRearms` shows a live host beginning a slide
    show after its probe failed.
- There is no claim that disposed images are never used, or that the
  dialogs always show the history. A frame evicted from the history may
  still be cached, and a replaced cache entry may still be in the history.
  The model keeps such frames in `disposed` and follows the source's
  swallowed exception. The affected dialog then shows an old image
  (`Traces.RevisitedSlideGoesStale`).
