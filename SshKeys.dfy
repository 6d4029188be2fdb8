/** `import_authorized_keys`: copying the known_hosts and authorized_keys
    entries a cloud-compute relation publishes into the two files, all or
    nothing. */
module SshKeys {
  import opened PyText

  const KnownHosts := "known_hosts"
  const AuthorizedKeys := "authorized_keys"

  /** The relation data of the remote unit: `relation_get` of a missing key is None. */
  type RelationData = map<string, string>

  /** What the call leaves behind: no write at all, or the full text of the
      known_hosts file and of the authorized_keys file. */
  datatype Outcome = Skipped | Written(knownHosts: string, authorizedKeys: string)

  /** The key prefix: an empty prefix is falsy, like None. */
  function Prefixed(prefix: string, name: string): string
  {
    if prefix != "" then prefix + "_" + name else name
  }

  function CountKey(prefix: string, kind: string): string
  {
    Prefixed(prefix, kind + "_max_index")
  }

  function EntryKey(prefix: string, kind: string, index: nat): string
  {
    Prefixed(prefix, kind + "_" + NatToString(index))
  }

  function Get(rel: RelationData, key: string): Option<string>
  {
    if key in rel then Some(rel[key]) else None
  }

  /** The number of entries to fetch: none when the count is missing or
      empty, the integer it holds otherwise, and the ValueError of `int()`
      (carrying the text) when it is not an integer. */
  function Count(rel: RelationData, key: string): Result<int, string>
  {
    if key !in rel || rel[key] == "" then Ok(0)
    else match ParseInt(rel[key])
      case Some(n) => Ok(n)
      case None => Err(rel[key])
  }

  /** The entries fetched for indices `0 .. n - 1`, in order. */
  function Entries(rel: RelationData, prefix: string, kind: string, n: int): (r: seq<Option<string>>)
    ensures |r| == if n < 0 then 0 else n
    ensures forall i :: 0 <= i < |r| ==> r[i] == Get(rel, EntryKey(prefix, kind, i))
    decreases if n < 0 then 0 else n
  {
    if n <= 0 then [] else Entries(rel, prefix, kind, n - 1) + [Get(rel, EntryKey(prefix, kind, n - 1))]
  }

  /** `'{}'.format(v)`: a missing entry prints as None. */
  function Render(v: Option<string>): string
  {
    match v
    case Some(s) => s
    case None => "None"
  }

  /** The file text: one line per entry, in order. */
  function Lines(entries: seq<Option<string>>): string
  {
    if entries == [] then ""
    else Lines(entries[..|entries| - 1]) + Render(entries[|entries| - 1]) + "\n"
  }

  /** The whole effect of `import_authorized_keys`. */
  function ImportOutcome(rel: RelationData, prefix: string): Result<Outcome, string>
  {
    match Count(rel, CountKey(prefix, KnownHosts))
    case Err(e) => Err(e)
    case Ok(kn) =>
      match Count(rel, CountKey(prefix, AuthorizedKeys))
      case Err(e) => Err(e)
      case Ok(an) =>
        var kh := Entries(rel, prefix, KnownHosts, kn);
        var ak := Entries(rel, prefix, AuthorizedKeys, an);
        if |kh| == 0 || |ak| == 0 then Ok(Skipped)
        else Ok(Written(Lines(kh), Lines(ak)))
  }

  /** Fetch the entries of one kind, the way each of the source's two loops does. */
  method FetchEntries(rel: RelationData, prefix: string, kind: string) returns (r: Result<seq<Option<string>>, string>)
    ensures r.Err? <==> Count(rel, CountKey(prefix, kind)).Err?
    ensures r.Err? ==> r.error == Count(rel, CountKey(prefix, kind)).error
    ensures r.Ok? ==> r.value == Entries(rel, prefix, kind, Count(rel, CountKey(prefix, kind)).value)
  {
    var entries: seq<Option<string>> := [];
    var countKey := CountKey(prefix, kind);
    if countKey in rel && rel[countKey] != "" {
      var parsed := ParseInt(rel[countKey]);
      if parsed.None? {
        return Err(rel[countKey]);
      }
      assert Count(rel, countKey) == Ok(parsed.value);
      var index := 0;
      while index < parsed.value
        invariant 0 <= index && (if parsed.value >= 0 then index <= parsed.value else index == 0)
        invariant entries == Entries(rel, prefix, kind, index)
      {
        entries := entries + [Get(rel, EntryKey(prefix, kind, index))];
        index := index + 1;
      }
      assert entries == Entries(rel, prefix, kind, parsed.value);
    }
    return Ok(entries);
  }

  /** Write one file's text, line by line. */
  method WriteLines(entries: seq<Option<string>>) returns (text: string)
    ensures text == Lines(entries)
  {
    text := "";
    var index := 0;
    while index < |entries|
      invariant 0 <= index <= |entries|
      invariant text == Lines(entries[..index])
    {
      assert entries[..index + 1][..index] == entries[..index];
      text := text + Render(entries[index]) + "\n";
      index := index + 1;
    }
    assert entries[..index] == entries;
  }

  /** `import_authorized_keys`: fetch both lists, return without writing when
      either is empty, and otherwise write both files in index order. */
  method ImportAuthorizedKeys(rel: RelationData, prefix: string) returns (r: Result<Outcome, string>)
    ensures r == ImportOutcome(rel, prefix)
  {
    var knownHosts := FetchEntries(rel, prefix, KnownHosts);
    if knownHosts.Err? {
      return Err(knownHosts.error);
    }
    var authorizedKeys := FetchEntries(rel, prefix, AuthorizedKeys);
    if authorizedKeys.Err? {
      return Err(authorizedKeys.error);
    }
    if |knownHosts.value| == 0 || |authorizedKeys.value| == 0 {
      return Ok(Skipped);
    }
    var hostsText := WriteLines(knownHosts.value);
    var keysText := WriteLines(authorizedKeys.value);
    return Ok(Written(hostsText, keysText));
  }

  /** Nothing is written exactly when both counts read as integers and one
      of them gives no entries (missing, empty, zero or negative). */
  lemma SkippedIff(rel: RelationData, prefix: string)
    ensures ImportOutcome(rel, prefix) == Ok(Skipped) <==>
              && Count(rel, CountKey(prefix, KnownHosts)).Ok?
              && Count(rel, CountKey(prefix, AuthorizedKeys)).Ok?
              && (Count(rel, CountKey(prefix, KnownHosts)).value <= 0
                  || Count(rel, CountKey(prefix, AuthorizedKeys)).value <= 0)
  {
  }

  /** The call fails exactly when one of the two counts is present,
      non-empty and not an integer. */
  lemma FailsIff(rel: RelationData, prefix: string)
    ensures ImportOutcome(rel, prefix).Err? <==>
              Count(rel, CountKey(prefix, KnownHosts)).Err? || Count(rel, CountKey(prefix, AuthorizedKeys)).Err?
  {
  }

  /** The position of the last `c` in `s`, or -1. */
  function LastIndexOf(s: string, c: char): (r: int)
    ensures -1 <= r < |s|
    ensures r >= 0 ==> s[r] == c
    ensures forall i :: r < i < |s| ==> s[i] != c
  {
    if s == [] then -1 else if s[|s| - 1] == c then |s| - 1 else LastIndexOf(s[..|s| - 1], c)
  }

  /** Reading a file's text back as its lines (each ended by a newline). */
  function SplitLines(s: string): seq<string>
    decreases |s|
  {
    if s == [] then []
    else if s[|s| - 1] != '\n' then [s]
    else
      var body := s[..|s| - 1];
      var j := LastIndexOf(body, '\n');
      SplitLines(body[..j + 1]) + [body[j + 1..]]
  }

  function RenderAll(entries: seq<Option<string>>): (r: seq<string>)
    ensures |r| == |entries|
    ensures forall i :: 0 <= i < |r| ==> r[i] == Render(entries[i])
  {
    if entries == [] then [] else RenderAll(entries[..|entries| - 1]) + [Render(entries[|entries| - 1])]
  }

  predicate NoNewline(s: string)
  {
    forall i :: 0 <= i < |s| ==> s[i] != '\n'
  }

  /** Written text splits back into one line per entry, in order, as long as
      no entry holds a newline of its own. */
  lemma {:induction false} LinesRoundTrip(entries: seq<Option<string>>)
    requires forall i :: 0 <= i < |entries| ==> NoNewline(Render(entries[i]))
    ensures SplitLines(Lines(entries)) == RenderAll(entries)
  {
    if entries != [] {
      var init := entries[..|entries| - 1];
      var last := Render(entries[|entries| - 1]);
      LinesRoundTrip(init);
      var prev := Lines(init);
      var s := Lines(entries);
      var body := s[..|s| - 1];
      assert body == prev + last;
      assert prev == [] || prev[|prev| - 1] == '\n';
      var j := LastIndexOf(body, '\n');
      assert j == |prev| - 1 by {
        if prev != [] {
          assert body[|prev| - 1] == '\n';
        }
        forall i | |prev| <= i < |body|
          ensures body[i] != '\n'
        {
          assert body[i] == last[i - |prev|];
        }
      }
      assert body[..j + 1] == prev;
      assert body[j + 1..] == last;
    }
  }

  /** The first `n` indexed entries of one kind hold no newline where present. */
  predicate EntriesClean(rel: RelationData, prefix: string, kind: string, n: int)
  {
    forall i: nat :: i < n && EntryKey(prefix, kind, i) in rel ==> NoNewline(rel[EntryKey(prefix, kind, i)])
  }

  /** Entries without newlines render without newlines. */
  lemma EntriesNoNewline(rel: RelationData, prefix: string, kind: string, n: int)
    requires EntriesClean(rel, prefix, kind, n)
    ensures forall i :: 0 <= i < |Entries(rel, prefix, kind, n)| ==>
              NoNewline(Render(Entries(rel, prefix, kind, n)[i]))
  {
    assert NoNewline("None");
  }

  /** When both counts give entries, both files are written, and each holds
      one line per fetched entry in index order, as many as its count says,
      as long as the fetched entries hold no newline of their own. */
  lemma WrittenFilesHoldEntries(rel: RelationData, prefix: string, kn: int, an: int)
    requires Count(rel, CountKey(prefix, KnownHosts)) == Ok(kn) && kn > 0
    requires Count(rel, CountKey(prefix, AuthorizedKeys)) == Ok(an) && an > 0
    requires EntriesClean(rel, prefix, KnownHosts, kn) && EntriesClean(rel, prefix, AuthorizedKeys, an)
    ensures ImportOutcome(rel, prefix).Ok? && ImportOutcome(rel, prefix).value.Written?
    ensures |SplitLines(ImportOutcome(rel, prefix).value.knownHosts)| == kn
    ensures |SplitLines(ImportOutcome(rel, prefix).value.authorizedKeys)| == an
    ensures forall i :: 0 <= i < kn ==>
              SplitLines(ImportOutcome(rel, prefix).value.knownHosts)[i]
                == Render(Get(rel, EntryKey(prefix, KnownHosts, i)))
    ensures forall i :: 0 <= i < an ==>
              SplitLines(ImportOutcome(rel, prefix).value.authorizedKeys)[i]
                == Render(Get(rel, EntryKey(prefix, AuthorizedKeys, i)))
  {
    var kh := Entries(rel, prefix, KnownHosts, kn);
    var ak := Entries(rel, prefix, AuthorizedKeys, an);
    assert ImportOutcome(rel, prefix) == Ok(Written(Lines(kh), Lines(ak)));
    EntriesNoNewline(rel, prefix, KnownHosts, kn);
    EntriesNoNewline(rel, prefix, AuthorizedKeys, an);
    LinesRoundTrip(kh);
    LinesRoundTrip(ak);
  }
}
