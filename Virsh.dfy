/** The decisions `create_libvirt_secret` and `destroy_libvirt_network` take
    over virsh's output: which virsh commands they issue and how a failing
    command ends the call. The outputs of the commands are inputs here. */
module Virsh {
  import opened PyText
  import opened Tables

  /** The virsh invocations of `create_libvirt_secret`, with the connection URI they name. */
  datatype Command =
    | SecretList(uri: string)
    | SecretGetValue(uri: string, uuid: string)
    | SecretDefine(uri: string, file: string)
    | SecretSetValue(uri: string, uuid: string, key: string)

  /** The result of running a command: its output, a CalledProcessError, or
      an OSError with its errno. */
  datatype Call<T> = Returned(output: T) | ProcessFailed | OSFailed(errno: int)

  /** How `create_libvirt_secret` ends: normally, with the KeyError of the
      LIBVIRT_URIS lookup (carrying the virt type), or with the exception of
      the last command issued, which it does not catch. */
  datatype SecretStatus = Completed | UnknownVirtType(virtType: string) | CommandRaised

  datatype SecretReport = SecretReport(issued: seq<Command>, status: SecretStatus)

  /** The command `c` raises, given what each of the four virsh calls does. */
  predicate Raises(c: Command, listed: Call<string>, stored: Call<string>, define: Call<()>, setValue: Call<()>)
  {
    match c
    case SecretList(_) => !listed.Returned?
    case SecretGetValue(_, _) => !stored.Returned?
    case SecretDefine(_, _) => !define.Returned?
    case SecretSetValue(_, _, _) => !setValue.Returned?
  }

  /** `create_libvirt_secret`: the commands issued, in order, and how the
      call ends. `listed` is the outcome of secret-list, `stored` that of
      secret-get-value (only run when the uuid appears in the list), and
      `define` and `setValue` those of secret-define and secret-set-value. */
  function SecretCommands(virtType: string, file: string, uuid: string, key: string,
                          listed: Call<string>, stored: Call<string>,
                          define: Call<()>, setValue: Call<()>): (r: SecretReport)
    ensures r.status.UnknownVirtType? <==> virtType !in LibvirtUris
    ensures r.status.UnknownVirtType? ==> r.issued == [] && r.status.virtType == virtType
    ensures !r.status.UnknownVirtType? ==> |r.issued| >= 1 && r.issued[0] == SecretList(LibvirtUris[virtType])
    ensures r.status == CommandRaised <==>
              |r.issued| >= 1 && Raises(r.issued[|r.issued| - 1], listed, stored, define, setValue)
    ensures forall i :: 0 <= i < |r.issued| - 1 ==> !Raises(r.issued[i], listed, stored, define, setValue)
  {
    if virtType !in LibvirtUris then SecretReport([], UnknownVirtType(virtType))
    else
      var uri := LibvirtUris[virtType];
      if !listed.Returned? then SecretReport([SecretList(uri)], CommandRaised)
      else if Contains(listed.output, uuid) && !stored.Returned? then
        SecretReport([SecretList(uri), SecretGetValue(uri, uuid)], CommandRaised)
      else
        var query := if Contains(listed.output, uuid) then [SecretList(uri), SecretGetValue(uri, uuid)]
                     else [SecretList(uri)];
        if Contains(listed.output, uuid) && Strip(stored.output) == key then SecretReport(query, Completed)
        else if !define.Returned? then SecretReport(query + [SecretDefine(uri, file)], CommandRaised)
        else if !setValue.Returned? then
          SecretReport(query + [SecretDefine(uri, file), SecretSetValue(uri, uuid, key)], CommandRaised)
        else SecretReport(query + [SecretDefine(uri, file), SecretSetValue(uri, uuid, key)], Completed)
  }

  /** When the queries succeed: the stored value is read exactly when the
      uuid is listed; the secret is (re)defined exactly when the uuid is not
      listed or its stored value, stripped, differs from the key; its value
      is set exactly when the define succeeded, and those two come last. */
  lemma SecretWrittenIff(virtType: string, file: string, uuid: string, key: string,
                         listed: Call<string>, stored: Call<string>, define: Call<()>, setValue: Call<()>)
    requires virtType in LibvirtUris && listed.Returned?
    requires Contains(listed.output, uuid) ==> stored.Returned?
    ensures var r := SecretCommands(virtType, file, uuid, key, listed, stored, define, setValue).issued;
            var uri := LibvirtUris[virtType];
            && (SecretGetValue(uri, uuid) in r <==> Contains(listed.output, uuid))
            && (SecretDefine(uri, file) in r <==>
                  !Contains(listed.output, uuid) || Strip(stored.output) != key)
            && (SecretSetValue(uri, uuid, key) in r <==> SecretDefine(uri, file) in r && define.Returned?)
            && (SecretSetValue(uri, uuid, key) in r ==>
                  r[|r| - 2] == SecretDefine(uri, file) && r[|r| - 1] == SecretSetValue(uri, uuid, key))
  {
    var uri := LibvirtUris[virtType];
    var listedUuid := Contains(listed.output, uuid);
    var query := if listedUuid then [SecretList(uri), SecretGetValue(uri, uuid)] else [SecretList(uri)];
    var stale := !listedUuid || Strip(stored.output) != key;
    var tail := if !stale then [] else if !define.Returned? then [SecretDefine(uri, file)]
                else [SecretDefine(uri, file), SecretSetValue(uri, uuid, key)];
    var r := SecretCommands(virtType, file, uuid, key, listed, stored, define, setValue).issued;
    assert r == query + tail;
    assert SecretGetValue(uri, uuid) !in tail;
    assert SecretDefine(uri, file) !in query && SecretSetValue(uri, uuid, key) !in query;
    assert SecretGetValue(uri, uuid) in r <==> SecretGetValue(uri, uuid) in query;
    assert SecretDefine(uri, file) in r <==> SecretDefine(uri, file) in tail;
    assert SecretSetValue(uri, uuid, key) in r <==> SecretSetValue(uri, uuid, key) in tail;
  }

  /** Once virsh lists the uuid and reports the key (followed by any
      whitespace, such as its closing newline), calling again only queries:
      the operation is idempotent. */
  lemma SecretSettles(virtType: string, file: string, uuid: string, key: string, listed: string, pad: string,
                      define: Call<()>, setValue: Call<()>)
    requires virtType in LibvirtUris
    requires Contains(listed, uuid)
    requires key == [] || (!IsSpace(key[0]) && !IsSpace(key[|key| - 1]))
    requires forall i :: 0 <= i < |pad| ==> IsSpace(pad[i])
    ensures SecretCommands(virtType, file, uuid, key, Returned(listed), Returned(key + pad), define, setValue)
              == SecretReport([SecretList(LibvirtUris[virtType]), SecretGetValue(LibvirtUris[virtType], uuid)],
                              Completed)
  {
    StripTrailing(key, pad);
  }

  /** There is no libvirt URI for lxd, so the lookup fails for it before any
      command runs. */
  lemma SecretFailsForLxd(file: string, uuid: string, key: string, listed: Call<string>, stored: Call<string>,
                          define: Call<()>, setValue: Call<()>)
    ensures SecretCommands("lxd", file, uuid, key, listed, stored, define, setValue)
              == SecretReport([], UnknownVirtType("lxd"))
  {
  }

  /** How `destroy_libvirt_network` ends: normally, after logging a warning
      for a failed virsh command, after logging that virsh is missing
      (errno 2), or by re-raising any other OSError. */
  datatype NetStatus = Finished | Warned | VirshMissing | Raised(errno: int)

  datatype NetReport = NetReport(destroyIssued: bool, status: NetStatus)

  /** `re.search("^\s+{} ".format(netname), line)` for a name without
      pattern metacharacters: leading whitespace, the name, then a space. */
  predicate NamesNetwork(line: string, netname: string)
  {
    exists k | 1 <= k <= |line| - |netname| - 1 :: NameAt(line, netname, k)
  }

  predicate NameAt(line: string, netname: string, k: int)
  {
    && 1 <= k <= |line| - |netname| - 1
    && (forall j :: 0 <= j < k ==> IsSpace(line[j]))
    && line[k..k + |netname|] == netname
    && line[k + |netname|] == ' '
  }

  /** How a failing command is reported. */
  function Failure<T>(c: Call<T>): NetStatus
  {
    match c
    case Returned(_) => Finished
    case ProcessFailed => Warned
    case OSFailed(e) => if e == 2 then VirshMissing else Raised(e)
  }

  /** `destroy_libvirt_network`: list the networks; with fewer than three
      lines there is nothing to do; otherwise scan from the third line on
      and destroy the network at the first line that names it. */
  method DestroyLibvirtNetwork(netname: string, listing: Call<seq<string>>, destroy: Call<()>)
    returns (report: NetReport)
    ensures report.destroyIssued <==>
      && listing.Returned?
      && |listing.output| >= 3
      && exists i :: 2 <= i < |listing.output| && NamesNetwork(listing.output[i], netname)
    ensures !listing.Returned? ==> report.status == Failure(listing)
    ensures listing.Returned? && !report.destroyIssued ==> report.status == Finished
    ensures report.destroyIssued ==> report.status == Failure(destroy)
  {
    if !listing.Returned? {
      return NetReport(false, Failure(listing));
    }
    var out := listing.output;
    if |out| < 3 {
      return NetReport(false, Finished);
    }
    var i := 2;
    while i < |out|
      invariant 2 <= i <= |out|
      invariant forall j :: 2 <= j < i ==> !NamesNetwork(out[j], netname)
    {
      if NamesNetwork(out[i], netname) {
        return NetReport(true, Failure(destroy));
      }
      i := i + 1;
    }
    return NetReport(false, Finished);
  }

  /** A line such as " default active yes" names the network "default"; an
      unindented line never does. (virsh's indented header row is skipped
      because the scan starts at the third line.) */
  lemma NetListExample()
    ensures NamesNetwork(" default active yes", "default")
    ensures !NamesNetwork("default active", "default")
  {
    var line := " default" + " active yes";
    assert line[0] == ' ' && line[8] == ' ';
    assert line[1..8] == "default";
    assert NameAt(line, "default", 1);
    assert line == " default active yes";
  }
}
