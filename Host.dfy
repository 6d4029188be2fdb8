/** Two host-tuning decisions: `set_ppc64_cpu_smt_state`, over the output of
    `ppc64_cpu --smt`, and the integer branch of `get_hugepage_number`. */
module Host {
  import opened PyText

  /** What `set_ppc64_cpu_smt_state` does: nothing, issue
      `ppc64_cpu --smt=<state>`, or, when that command fails, set the unit
      blocked with a message and re-raise. */
  datatype SmtOutcome = Unchanged | SetState(argument: string) | Blocked(message: string)

  /** The current output already shows the requested state. */
  predicate SmtAlready(state: string, current: string)
  {
    Contains(current, "SMT=" + state) || (state == "off" && Contains(current, "SMT is off"))
  }

  /** `set_ppc64_cpu_smt_state`: `current` is the query output and
      `setFails` whether the set command raises CalledProcessError. */
  function SmtDecision(state: string, current: string, setFails: bool): (r: SmtOutcome)
    ensures r == Unchanged <==> SmtAlready(state, current)
    ensures r.SetState? <==> !SmtAlready(state, current) && !setFails
    ensures r.SetState? ==> r.argument == "--smt=" + state
    ensures r.Blocked? ==> r.message == "Failed to set ppc64_cpu smt state: " + state
  {
    if Contains(current, "SMT=" + state) then Unchanged
    else if state == "off" && Contains(current, "SMT is off") then Unchanged
    else if setFails then Blocked("Failed to set ppc64_cpu smt state: " + state)
    else SetState("--smt=" + state)
  }

  /** Once the query reports the requested state anywhere in its output, a
      further call changes nothing. */
  lemma SmtSettles(state: string, before: string, after: string, setFails: bool)
    ensures SmtDecision(state, before + "SMT=" + state + after, setFails) == Unchanged
  {
    var out := before + "SMT=" + state + after;
    assert out[|before|..|before| + |"SMT=" + state|] == "SMT=" + state;
    assert OccursAt(out, "SMT=" + state, |before|);
  }

  /** "SMT is off" satisfies a request for "off", whether or not a set
      would fail; any other requested state is set, because the report
      holds no "SMT=". */
  lemma SmtOffReport(state: string, setFails: bool)
    ensures SmtDecision("off", "SMT is off", setFails) == Unchanged
    ensures state != "off" && !setFails ==>
              SmtDecision(state, "SMT is off", setFails) == SetState("--smt=" + state)
  {
    assert OccursAt("SMT is off", "SMT is off", 0);
    NoSmtValueIn("SMT is off", state);
  }

  /** A report without an '=' shows no `SMT=<state>`. */
  lemma NoSmtValueIn(report: string, state: string)
    requires forall j :: 0 <= j < |report| ==> report[j] != '='
    ensures !Contains(report, "SMT=" + state)
  {
    var needle := "SMT=" + state;
    forall i | 0 <= i <= |report| - |needle|
      ensures !OccursAt(report, needle, i)
    {
      assert needle[3] == '=';
      assert report[i..i + |needle|][3] == report[i + 3];
    }
  }

  /** The `hugepages` setting as `get_hugepage_number` reads it: unset, a
      page count, or a share of memory ("<n>%") whose computation from the
      host's memory total is not modelled. */
  datatype Hugepages = NotConfigured | Pages(count: int) | MemoryShare(setting: string)

  /** `get_hugepage_number`: an unset or empty setting gives None, a setting
      ending in '%' is a memory share, and anything else goes through
      `int()`, whose ValueError carries the setting. */
  function HugepageNumber(setting: Option<string>): (r: Result<Hugepages, string>)
    ensures r == Ok(NotConfigured) <==> setting == None || setting == Some("")
    ensures r.Ok? && r.value.MemoryShare? <==> setting.Some? && setting.value != "" && EndsWith(setting.value, "%")
    ensures r.Err? ==> setting.Some? && r.error == setting.value && ParseInt(setting.value) == None
    ensures r.Ok? && r.value.Pages? ==> setting.Some? && ParseInt(setting.value) == Some(r.value.count)
  {
    match setting
    case None => Ok(NotConfigured)
    case Some(s) =>
      if s == "" then Ok(NotConfigured)
      else if EndsWith(s, "%") then Ok(MemoryShare(s))
      else match ParseInt(s)
        case Some(n) => Ok(Pages(n))
        case None => Err(s)
  }

  /** Any integer written out as the setting is read back as that page count. */
  lemma HugepageRoundTrip(n: int)
    ensures HugepageNumber(Some(IntToString(n))) == Ok(Pages(n))
  {
    var s := IntToString(n);
    IntRoundTrip(n);
    var digits := NatToString(if n < 0 then -n else n);
    assert s[|s| - 1] == digits[|digits| - 1];
    assert IsDigit(s[|s| - 1]);
  }
}
