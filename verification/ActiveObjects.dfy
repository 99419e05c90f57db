/** What the active objects share: error codes and request statuses. */
module ActiveObjects {
  import opened Outcomes

  const KERR_NONE: int := 0
  const KERR_NOT_FOUND: int := -1
  const KERR_GENERAL: int := -2
  const KERR_CANCEL: int := -3
  const KERR_ALREADY_EXISTS: int := -11
  const KERR_IN_USE: int := -14

  /** TRequestStatus: None stands for KRequestPending. */
  class RequestStatus {
    var value: Option<int>

    constructor ()
      ensures value == Some(KERR_NONE)
    {
      value := Some(KERR_NONE);
    }

    method SetPending()
      modifies this
      ensures value == None
    {
      value := None;
    }

    /** User::RequestComplete: only a pending request may be completed, a second completion
        would be a stray signal. */
    method Complete(code: int)
      requires value == None
      modifies this
      ensures value == Some(code)
    {
      value := Some(code);
    }
  }
}
