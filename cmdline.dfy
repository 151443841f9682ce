/** `parse_cmdline`: one left-to-right pass over the kernel command line that applies
    each dispatched pair to the record, then NFS root resolution when the root is on NFS. */
module Cmdline {
  import opened Text
  import opened Options
  import opened Tokenizer
  import opened Nfsroot

  /** The root is network-mounted: `root=/dev/nfs` or `rootfstype=nfs`. */
  predicate NfsSelected(o: Options)
  {
    o.root == Some("/dev/nfs") || o.rootfstype == Some("nfs")
  }

  /** The whole of `parse_cmdline`, with `/proc/net/pnp` passed in as `pnp`. */
  function Parse(o: Options, cmdline: string, pnp: Option<string>): (r: Outcome)
    // NFS resolution never touches `nfsroot`, `init` or the flags
    ensures r.opts.nfsroot == ApplyAll(o, Tokens(cmdline)).opts.nfsroot
    ensures r.opts.init == ApplyAll(o, Tokens(cmdline)).opts.init
    ensures r.opts.rootfsflags == ApplyAll(o, Tokens(cmdline)).opts.rootfsflags
    // a failing option aborts the pass before resolution
    ensures !ApplyAll(o, Tokens(cmdline)).status.Ok? ==> r == ApplyAll(o, Tokens(cmdline))
    // a normal pass is the result when the root is not on NFS, and is resolved when it is
    ensures ApplyAll(o, Tokens(cmdline)).status.Ok? && !NfsSelected(ApplyAll(o, Tokens(cmdline)).opts) ==>
      r == ApplyAll(o, Tokens(cmdline))
    ensures ApplyAll(o, Tokens(cmdline)).status.Ok? && NfsSelected(ApplyAll(o, Tokens(cmdline)).opts) ==>
      r == ResolveNfs(ApplyAll(o, Tokens(cmdline)).opts, pnp)
    // after a pass that ends normally, the root ends up on NFS exactly when it was selected
    ensures ApplyAll(o, Tokens(cmdline)).status.Ok? && r.status.Ok? ==>
      (NfsSelected(ApplyAll(o, Tokens(cmdline)).opts) <==> r.opts.rootfstype == Some("nfs"))
    ensures r.status == Err(MissingNfsRoot) <==>
      ApplyAll(o, Tokens(cmdline)).status.Ok? && NfsSelected(ApplyAll(o, Tokens(cmdline)).opts) &&
      ApplyAll(o, Tokens(cmdline)).opts.nfsroot.None?
    ensures o.Valid() ==> r.opts.Valid()
  {
    var pass := ApplyAll(o, Tokens(cmdline));
    PassKeepsValid(o, Tokens(cmdline));
    NfsrootNeverCleared(o, Tokens(cmdline));
    if pass.status.Ok? && NfsSelected(pass.opts) then ResolveNfs(pass.opts, pnp) else pass
  }

  lemma {:induction false} PassKeepsValid(o: Options, ts: seq<Token>)
    ensures o.Valid() ==> ApplyAll(o, ts).opts.Valid()
    decreases |ts|
  {
    if ts != [] {
      PassKeepsValid(ApplyOption(o, ts[0]).opts, ts[1..]);
    }
  }

  /** No pair unsets `nfsroot`; the only error a pass can end in is a missing argument. */
  lemma {:induction false} NfsrootNeverCleared(o: Options, ts: seq<Token>)
    ensures o.nfsroot.Some? ==> ApplyAll(o, ts).opts.nfsroot.Some?
    ensures ApplyAll(o, ts).status.Err? ==> ApplyAll(o, ts).status.error.MissingArgument?
    decreases |ts|
  {
    if ts != [] {
      var r := ApplyOption(o, ts[0]);
      if r.status.Ok? {
        if KeyOf(ts[0].key).IsScalar() {
          ApplyScalar(o, ts[0], NfsRoot);
        } else if KeyOf(ts[0].key).Ro? || KeyOf(ts[0].key).Rw? {
          ApplyRoRw(o, ts[0]);
        }
        NfsrootNeverCleared(r.opts, ts[1..]);
      }
    }
  }

  /** A command line that does not put the root on NFS leaves the record of the pass:
      every setting is the value of the last pair naming it, and the last `ro` or `rw`
      decides the read-only bit. */
  lemma LocalRootLastWins(o: Options, cmdline: string, pnp: Option<string>, k: Key)
    requires k.IsScalar()
    requires ApplyAll(o, Tokens(cmdline)).status.Ok? && !NfsSelected(ApplyAll(o, Tokens(cmdline)).opts)
    ensures Parse(o, cmdline, pnp).status == Ok
    ensures Setting(Parse(o, cmdline, pnp).opts, k) == LastValue(Tokens(cmdline), k, Setting(o, k))
    ensures Parse(o, cmdline, pnp).opts.ReadOnly() == LastReadOnly(Tokens(cmdline), o.ReadOnly())
  {
    LastSettingWins(o, Tokens(cmdline), k);
    LastReadOnlyWins(o, Tokens(cmdline));
  }

  /** A value-requiring key without `=` aborts the pass where it stands: options before it
      keep their effect, the field it names and everything after it are untouched, and the
      error names the key. */
  lemma MissingArgumentAborts(o: Options, before: seq<Token>, key: string, after: seq<Token>, pnp: Option<string>, cmdline: string)
    requires Tokens(cmdline) == before + [Token(key, None)] + after
    requires KeyOf(key).NeedsValue()
    requires ApplyAll(o, before).status.Ok?
    ensures Parse(o, cmdline, pnp) == Outcome(ApplyAll(o, before).opts, Err(MissingArgument(key)))
  {
    var t := Token(key, None);
    assert before + [t] + after == before + ([t] + after);
    ApplyAllAppend(o, before, [t] + after);
    assert ([t] + after)[0] == t && ([t] + after)[1..] == after;
  }

  /** `parse_cmdline` on the record in place. */
  method ParseCmdline(cmdline: string, options: CmdlineOptions, pnp: Option<string>) returns (status: Status)
    modifies options
    ensures Outcome(options.Value(), status) == Parse(old(options.Value()), cmdline, pnp)
  {
    ghost var o0 := options.Value();
    var haveValue := false;
    var quoted := false;
    var key: string := [];
    var value: string := [];

    for i := 0 to |cmdline|
      invariant Run(Start, cmdline[..i]).0 == Lexer(haveValue, quoted, key, value)
      invariant ApplyAll(o0, Run(Start, cmdline[..i]).1) == Outcome(options.Value(), Ok)
    {
      var c := cmdline[i];
      ghost var before := Lexer(haveValue, quoted, key, value);
      ghost var done := Run(Start, cmdline[..i]).1;
      ghost var next := Step(before, c);
      assert cmdline[..i + 1] == cmdline[..i] + [c];
      RunSnoc(Start, cmdline[..i], c);
      var skip := false;
      if c == '=' {
        if !haveValue {
          skip := true;
        }
        haveValue := true;
      } else if c == '"' {
        quoted := !quoted;
        skip := true;
      } else if c == ' ' || c == '\n' {
        if !quoted {
          if key != [] {
            var t := Token(key, if haveValue then Some(value) else None);
            assert next.1 == Some(t);
            ApplyAllAppend(o0, done, [t]);
            assert [t][1..] == [];
            var st := ParseOption(key, if haveValue then Some(value) else None, options);
            if st != Ok {
              AbortedPass(o0, cmdline, i + 1);
              return st;
            }
          }
          key := [];
          value := [];
          haveValue := false;
          skip := true;
        }
      }
      if !skip {
        if haveValue {
          value := value + [c];
        } else {
          key := key + [c];
        }
      }
      assert Lexer(haveValue, quoted, key, value) == next.0;
      if next.1.None? {
        assert done + Dispatched(next.1) == done;
      }
    }
    assert cmdline[..|cmdline|] == cmdline;
    if options.root == Some("/dev/nfs") || options.rootfstype == Some("nfs") {
      status := ParseNfsroot(options, pnp);
    } else {
      status := Ok;
    }
  }

  /** Once the pairs of a prefix end in a failure, the whole pass ends in that failure. */
  lemma AbortedPass(o: Options, cmdline: string, n: nat)
    requires n <= |cmdline|
    requires !ApplyAll(o, Run(Start, cmdline[..n]).1).status.Ok?
    ensures forall pnp :: Parse(o, cmdline, pnp) == ApplyAll(o, Run(Start, cmdline[..n]).1)
  {
    assert cmdline == cmdline[..n] + cmdline[n..];
    RunAppend(Start, cmdline[..n], cmdline[n..]);
    var l := Run(Start, cmdline[..n]).0;
    ApplyAllAppend(o, Run(Start, cmdline[..n]).1, Run(l, cmdline[n..]).1);
  }
}
