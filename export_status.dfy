/** The lifecycle states of an export record. */
module ExportStatuses {
  import opened Wrappers

  /** A backed enum with four cases. */
  datatype ExportStatus = Pending | Processing | Completed | Failed {
    /** The enum's backing value, as stored in the `status` column. */
    function Value(): string {
      match this
      case Pending => "pending"
      case Processing => "processing"
      case Completed => "completed"
      case Failed => "failed"
    }
  }

  /** `ExportStatus::tryFrom($value)`. */
  function From(value: string): (r: Option<ExportStatus>)
    ensures r.Some? ==> r.value.Value() == value
  {
    if value == "pending" then Some(Pending)
    else if value == "processing" then Some(Processing)
    else if value == "completed" then Some(Completed)
    else if value == "failed" then Some(Failed)
    else None
  }

  /** All the cases, in declaration order. */
  function Cases(): (r: seq<ExportStatus>)
    ensures |r| == 4 && r[0] == Pending
  {
    [Pending, Processing, Completed, Failed]
  }

  /** Parsing inverts `Value` in both directions. */
  lemma {:induction false} FromValueRoundTrip(s: ExportStatus, value: string)
    ensures From(s.Value()) == Some(s)
    ensures From(value) == Some(s) <==> s.Value() == value
  {
  }

  /** The four values are pairwise distinct, so a stored value names one status. */
  lemma {:induction false} ValuesInjective(s: ExportStatus, t: ExportStatus)
    ensures s.Value() == t.Value() ==> s == t
  {
  }

  /** There are exactly four statuses: the cases list every status once. */
  lemma {:induction false} CasesComplete(s: ExportStatus)
    ensures s in Cases()
    ensures forall i, j :: 0 <= i < j < |Cases()| ==> Cases()[i] != Cases()[j]
  {
    match s
    case Pending => assert Cases()[0] == s;
    case Processing => assert Cases()[1] == s;
    case Completed => assert Cases()[2] == s;
    case Failed => assert Cases()[3] == s;
  }
}
