/** `MProgressBar`: a progress bar whose style follows a status string. The style sheet
    knows three statuses; the shortcuts and the automatic colouring only ever pick one of
    them, while the property setter stores whatever it is given. */
module ProgressBar {

  const ErrorStatus: string := "error"
  const NormalStatus: string := "primary"
  const SuccessStatus: string := "success"

  /** The statuses the style sheet has a colour for. */
  predicate KnownStatus(s: string)
  {
    s == ErrorStatus || s == NormalStatus || s == SuccessStatus
  }

  /** The status `_update_color` picks for a value: success once the value reaches the
      maximum, normal before. */
  function ColorFor(value: int, maximum: int): (s: string)
    ensures KnownStatus(s)
    ensures s == SuccessStatus <==> value >= maximum
    ensures s == NormalStatus <==> value < maximum
  {
    if value >= maximum then SuccessStatus else NormalStatus
  }

  /** The status-changing calls other than the free-form setter. */
  datatype StatusCall = CallNormal | CallError | CallSuccess | CallUpdateColor(value: int)

  /** The status after one call, on a bar with the given maximum. */
  function Step(status: string, call: StatusCall, maximum: int): string
  {
    match call
    case CallNormal => NormalStatus
    case CallError => ErrorStatus
    case CallSuccess => SuccessStatus
    case CallUpdateColor(v) => ColorFor(v, maximum)
  }

  /** The status after a run of calls. */
  function Run(status: string, calls: seq<StatusCall>, maximum: int): string
    decreases |calls|
  {
    if calls == [] then status
    else Run(Step(status, calls[0], maximum), calls[1..], maximum)
  }

  /** Starting from a known status (the initial one is), every run of shortcuts and colour
      updates ends in a known status. */
  lemma {:induction false} RunKnown(status: string, calls: seq<StatusCall>, maximum: int)
    requires KnownStatus(status)
    ensures KnownStatus(Run(status, calls, maximum))
    decreases |calls|
  {
    if calls != [] {
      var next := Step(status, calls[0], maximum);
      assert KnownStatus(next);
      RunKnown(next, calls[1..], maximum);
    }
  }

  /** The status after a non-empty run depends only on the last call. */
  lemma {:induction false} RunLast(status: string, calls: seq<StatusCall>, maximum: int)
    requires calls != []
    ensures Run(status, calls, maximum) == Step(status, calls[|calls| - 1], maximum)
    decreases |calls|
  {
    if |calls| > 1 {
      RunLast(Step(status, calls[0], maximum), calls[1..], maximum);
      assert calls[1..][|calls[1..]| - 1] == calls[|calls| - 1];
    }
  }

  class ProgressBar {
    /** The toolkit's maximum value (100 unless the range is changed). */
    var maximum: int
    var status: string

    /** `__init__`: the status starts as normal, on the default range. */
    constructor ()
      ensures status == NormalStatus && maximum == 100
    {
      maximum := 100;
      status := NormalStatus;
    }

    /** The toolkit's `setMaximum`, which `_update_color` compares against. */
    method SetMaximum(m: int)
      modifies this
      ensures maximum == m && status == old(status)
    {
      maximum := m;
    }

    function GetStatus(): (s: string)
      reads this
      ensures s == status
    {
      status
    }

    /** `set_dayu_status`: any string is stored. */
    method SetStatus(value: string)
      modifies this
      ensures status == value && GetStatus() == value && maximum == old(maximum)
    {
      status := value;
    }

    /** `_update_color`. */
    method UpdateColor(value: int)
      modifies this
      ensures status == ColorFor(value, maximum) && maximum == old(maximum)
      ensures status == SuccessStatus <==> value >= maximum
    {
      if value >= maximum {
        SetStatus(SuccessStatus);
      } else {
        SetStatus(NormalStatus);
      }
    }

    /** The shortcuts: each sets its status and returns the bar itself. */
    method Normal() returns (self: ProgressBar)
      modifies this
      ensures self == this && status == NormalStatus && maximum == old(maximum)
    {
      SetStatus(NormalStatus);
      self := this;
    }

    method Error() returns (self: ProgressBar)
      modifies this
      ensures self == this && status == ErrorStatus && maximum == old(maximum)
    {
      SetStatus(ErrorStatus);
      self := this;
    }

    method Success() returns (self: ProgressBar)
      modifies this
      ensures self == this && status == SuccessStatus && maximum == old(maximum)
    {
      SetStatus(SuccessStatus);
      self := this;
    }
  }
}
