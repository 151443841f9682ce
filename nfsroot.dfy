/** NFS root resolution (`parse_nfsroot`): the final `root`, `rootflags` and
    `rootfstype` derived from `nfsroot=` and, when the path names no server, from the
    `bootserver` line of the kernel's `/proc/net/pnp` record. */
module Nfsroot {
  import opened Text
  import opened Options

  /** A line `bootserver <value>` of the auto-configuration record: its key, up to the
      first space, is `bootserver`. */
  predicate IsBootserverLine(line: string)
  {
    match SplitOnce(line, ' ')
    case None => false
    case Some((key, _)) => key == "bootserver"
  }

  /** The value of the first `bootserver` line, if there is one. */
  function Bootserver(lines: seq<string>): (r: Option<string>)
    ensures r.None? <==> forall i :: 0 <= i < |lines| ==> !IsBootserverLine(lines[i])
  {
    if lines == [] then None
    else
      var rest := Bootserver(lines[1..]);
      assert forall i :: 1 <= i < |lines| ==> lines[i] == lines[1..][i - 1];
      match SplitOnce(lines[0], ' ')
      case Some((key, value)) => if key == "bootserver" then Some(value) else rest
      case None => rest
  }

  /** The value found is that of the first `bootserver` line: that line reads
      `bootserver <value>` and no line before it is a `bootserver` line. */
  lemma {:induction false} BootserverFirst(lines: seq<string>)
    requires Bootserver(lines).Some?
    ensures exists i :: (0 <= i < |lines| && lines[i] == "bootserver " + Bootserver(lines).value &&
      IsBootserverLine(lines[i]) && forall j :: 0 <= j < i ==> !IsBootserverLine(lines[j]))
  {
    var v := Bootserver(lines).value;
    if IsBootserverLine(lines[0]) {
      var (key, value) := SplitOnce(lines[0], ' ').value;
      assert value == v;
      assert lines[0] == key + [' '] + value;
      assert key + [' '] == "bootserver ";
    } else {
      var rest := lines[1..];
      assert Bootserver(rest) == Bootserver(lines);
      BootserverFirst(rest);
      var i :| 0 <= i < |rest| && rest[i] == "bootserver " + v &&
        IsBootserverLine(rest[i]) && forall j :: 0 <= j < i ==> !IsBootserverLine(rest[j]);
      assert lines[i + 1] == rest[i];
      assert forall j :: 1 <= j < i + 1 ==> lines[j] == rest[j - 1];
    }
  }

  /** `nfsroot` split at its first comma: the path, and the comma with the NFS options
      after it, or nothing when there is no comma. */
  function SplitNfsroot(nfsroot: string): (r: (string, string))
    ensures r.0 + r.1 == nfsroot && ',' !in r.0
    ensures r.1 == [] || r.1[0] == ','
  {
    match SplitOnce(nfsroot, ',')
    case None => (nfsroot, [])
    case Some((path, flags)) => (path, [','] + flags)
  }

  /** The record mounted over NFS from `root`, with options `nolock`, then those given
      after the path, then `addr=` naming the server. */
  function Mount(o: Options, root: string, extra: string, host: string): (r: Options)
    ensures r.rootflags.Some? && "nolock" <= r.rootflags.value
  {
    var flags := "nolock" + extra + ",addr=" + host;
    assert flags == "nolock" + (extra + ",addr=" + host);
    o.(root := Some(root), rootflags := Some(flags), rootfstype := Some("nfs"))
  }

  /** `parse_nfsroot`, with the contents of `/proc/net/pnp` passed in (None when the
      file cannot be read). It is read only when the path names no server. */
  function ResolveNfs(o: Options, pnp: Option<string>): (r: Outcome)
    ensures r.status != Panic
    ensures !r.status.Ok? ==> r.opts == o
    ensures r.status == Err(MissingNfsRoot) <==> o.nfsroot.None?
    ensures r.status == Err(PnpUnavailable) <==>
      o.nfsroot.Some? && ':' !in SplitNfsroot(o.nfsroot.value).0 && pnp.None?
    // only `root`, `rootflags` and `rootfstype` are written; `nfsroot`, `init` and the flags are kept
    ensures r.status.Ok? ==> (r.opts.root.Some? && r.opts.rootflags.Some? &&
      r.opts == o.(root := r.opts.root, rootflags := r.opts.rootflags, rootfstype := Some("nfs")))
    ensures r.status.Ok? ==> "nolock" <= r.opts.rootflags.value
  {
    if o.nfsroot.None? then Outcome(o, Err(MissingNfsRoot))
    else
      var (path, extra) := SplitNfsroot(o.nfsroot.value);
      if ':' in path then Outcome(Mount(o, path, extra, SplitOnce(path, ':').value.0), Ok)
      else if pnp.None? then Outcome(o, Err(PnpUnavailable))
      else match Bootserver(Lines(pnp.value))
        case None => Outcome(Mount(o, path, extra, []), Ok)
        case Some(host) => Outcome(Mount(o, host + ":" + path, extra, host), Ok)
  }

  lemma SplitNfsrootAt(path: string, extra: string)
    requires ',' !in path && (extra == [] || extra[0] == ',')
    ensures SplitNfsroot(path + extra) == (path, extra)
  {
    if extra == [] {
      assert path + extra == path;
    } else {
      assert extra == [','] + extra[1..];
      assert path + extra == path + [','] + extra[1..];
      SplitOnceAt(path + extra, ',', path, extra[1..]);
    }
  }

  /** A path that already names its server, `host:dir`: it becomes `root` unchanged,
      the host becomes the `addr=` option, and `/proc/net/pnp` is not consulted. */
  lemma {:induction false} ResolveWithHost(o: Options, pnp: Option<string>, host: string, dir: string, extra: string)
    requires ',' !in host + ":" + dir && (extra == [] || extra[0] == ',')
    requires ':' !in host
    requires o.nfsroot == Some(host + ":" + dir + extra)
    ensures ResolveNfs(o, pnp) == Outcome(o.(
      root := Some(host + ":" + dir),
      rootflags := Some("nolock" + extra + ",addr=" + host),
      rootfstype := Some("nfs")), Ok)
  {
    var path := host + ":" + dir;
    SplitNfsrootAt(path, extra);
    assert path + [':'] == host + [':'] + dir + [':'];
    assert ':' in path by { assert path[|host|] == ':'; }
    SplitOnceAt(path, ':', host, dir);
  }

  /** A path that names no server: the server is the value of the first `bootserver`
      line of `/proc/net/pnp`, prefixed to the path and given as `addr=`; with no such
      line `addr=` stays empty and the path bare; an unreadable record is an error. */
  lemma ResolveWithoutHost(o: Options, pnp: Option<string>, path: string, extra: string)
    requires ',' !in path && ':' !in path && (extra == [] || extra[0] == ',')
    requires o.nfsroot == Some(path + extra)
    ensures pnp.None? ==> ResolveNfs(o, pnp) == Outcome(o, Err(PnpUnavailable))
    ensures pnp.Some? && Bootserver(Lines(pnp.value)).None? ==>
      ResolveNfs(o, pnp) == Outcome(o.(
        root := Some(path),
        rootflags := Some("nolock" + extra + ",addr="),
        rootfstype := Some("nfs")), Ok)
    ensures pnp.Some? && Bootserver(Lines(pnp.value)).Some? ==>
      var host := Bootserver(Lines(pnp.value)).value;
      ResolveNfs(o, pnp) == Outcome(o.(
        root := Some(host + ":" + path),
        rootflags := Some("nolock" + extra + ",addr=" + host),
        rootfstype := Some("nfs")), Ok)
  {
    SplitNfsrootAt(path, extra);
    assert "nolock" + extra + ",addr=" + [] == "nolock" + extra + ",addr=";
  }

  /** `parse_nfsroot` on the record in place. */
  method ParseNfsroot(options: CmdlineOptions, pnp: Option<string>) returns (status: Status)
    modifies options
    ensures Outcome(options.Value(), status) == ResolveNfs(old(options.Value()), pnp)
  {
    if options.nfsroot.None? {
      return Err(MissingNfsRoot);
    }
    var nfsrootOption := options.nfsroot.value;
    var rootflags := "nolock";
    var nfsroot: string;
    ghost var extra: string;
    match SplitOnce(nfsrootOption, ',') {
      case None =>
        nfsroot := nfsrootOption;
        extra := [];
      case Some((root, flags)) =>
        rootflags := rootflags + [','];
        rootflags := rootflags + flags;
        nfsroot := root;
        extra := [','] + flags;
    }
    assert SplitNfsroot(nfsrootOption) == (nfsroot, extra);
    assert rootflags == "nolock" + extra;
    rootflags := rootflags + ",addr=";
    ghost var path, base := nfsroot, rootflags;
    if ':' !in nfsroot {
      if pnp.None? {
        return Err(PnpUnavailable);
      }
      var lines := Lines(pnp.value);
      var i := 0;
      while i < |lines|
        invariant 0 <= i <= |lines|
        invariant Bootserver(lines[i..]) == Bootserver(lines)
        invariant nfsroot == path && rootflags == base
      {
        assert lines[i..][0] == lines[i] && lines[i..][1..] == lines[i + 1..];
        match SplitOnce(lines[i], ' ') {
          case None =>
          case Some((key, value)) =>
            if key == "bootserver" {
              nfsroot := value + ":" + nfsroot;
              rootflags := rootflags + value;
              break;
            }
        }
        i := i + 1;
      }
    } else {
      var (bootserver, _) := SplitOnce(nfsroot, ':').value;
      rootflags := rootflags + bootserver;
    }
    assert "nolock" + extra + ",addr=" + [] == base;
    options.root := Some(nfsroot);
    options.rootflags := Some(rootflags);
    options.rootfstype := Some("nfs");
    status := Ok;
  }
}
