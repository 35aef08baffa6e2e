/**
 Values shared by the slide-history engine: opaque image tokens, the
 connection status the engine reports, and the outcome of one capture tick.
 */
module Types {

  datatype Option<T> = None | Some(value: T)

  /** An image (a screenshot or a copy of one), identified only by its token. */
  datatype Frame = Frame(id: nat)

  /** The status reported through the StatusChanged event. */
  datatype Status = Connected | Disconnected

  /** HResult 0x80004002 (E_NOINTERFACE): the slide show window has gone away. */
  const NoInterfaceHResult: int := -2147467262

  /**
   What one capture tick observes: the slide index read from the slide show
   window together with a freshly captured screen image, or the exception
   thrown while reading the index or capturing.
   */
  datatype CaptureOutcome =
    | Captured(slideIndex: int, frame: Frame)
    | InvalidComObject
    | Failed(hresult: int)

  /** The failures that mean the presentation host has gone away. */
  predicate IsDisconnect(o: CaptureOutcome)
  {
    o.InvalidComObject? || (o.Failed? && o.hresult == NoInterfaceHResult)
  }
}
