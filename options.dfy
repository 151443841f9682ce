/** The option record `CmdlineOptions`, its defaults, and the application of one
    `(key, optional value)` pair to it (`ensure_value`, `parse_option`). */
module Options {
  import opened Text

  /** Mount flags (`MsFlags`), as the set of the `MS_*` bit values that are set; only the
      read-only bit is ever touched here. */
  type MountFlags = set<nat>
  const MS_RDONLY: nat := 1

  const SBIN_INIT: string := "/sbin/init"

  /** The value of a `CmdlineOptions` record. `init` is the text of the C string,
      without its terminating NUL. */
  datatype Options = Options(
    root: Option<string>,
    rootfstype: Option<string>,
    rootflags: Option<string>,
    rootfsflags: MountFlags,
    nfsroot: Option<string>,
    init: string)
  {
    /** The C string `init` holds no NUL before its terminator. */
    predicate Valid() { '\0' !in init }

    predicate ReadOnly() { MS_RDONLY in rootfsflags }
  }

  /** `CmdlineOptions::default()`. */
  const Default: Options := Options(None, None, None, {MS_RDONLY}, None, SBIN_INIT)

  datatype Error =
    | MissingArgument(key: string)  // a key that needs `=value` came without one
    | MissingNfsRoot                // NFS root selected but `nfsroot=` never given
    | PnpUnavailable                // `/proc/net/pnp` could not be read

  /** How a step ends: normally, with an error returned to the caller, or with a panic
      (`CString::new(..).unwrap()` on a value holding a NUL). */
  datatype Status = Ok | Err(error: Error) | Panic

  /** The record after a step together with how the step ended. When a step fails,
      the record is the one the step started from. */
  datatype Outcome = Outcome(opts: Options, status: Status)

  /** One `(key, optional value)` pair handed from the tokenizer to the applier. */
  datatype Token = Token(key: string, value: Option<string>)

  /** `ensure_value`: the value of a key that must have one. */
  function EnsureValue(key: string, value: Option<string>): (r: Result)
    ensures r.Value? <==> value.Some?
    ensures r.Value? ==> r.value == value.value
    ensures r.Missing? ==> r.error == MissingArgument(key)
  {
    if value.None? then Missing(MissingArgument(key)) else Value(value.value)
  }

  datatype Result = Value(value: string) | Missing(error: Error)

  /** The keys `parse_option` recognises; every other key is `Unknown`. */
  datatype Key = Root | RootFsType | RootFlags | Ro | Rw | NfsRoot | Init | Unknown
  {
    /** Keys that set one field. */
    predicate IsScalar() { !(Ro? || Rw? || Unknown?) }

    /** Keys that fail without a value. */
    predicate NeedsValue() { IsScalar() && !RootFlags? }
  }

  function KeyOf(key: string): (k: Key)
    ensures k.Unknown? <==>
      key !in {"root", "rootfstype", "rootflags", "ro", "rw", "nfsroot", "init"}
  {
    match key
    case "root" => Root
    case "rootfstype" => RootFsType
    case "rootflags" => RootFlags
    case "ro" => Ro
    case "rw" => Rw
    case "nfsroot" => NfsRoot
    case "init" => Init
    case _ => Unknown
  }

  /** The record field a scalar key sets, as an optional string (`init` is always set). */
  function Setting(o: Options, k: Key): Option<string>
    requires k.IsScalar()
  {
    match k
    case Root => o.root
    case RootFsType => o.rootfstype
    case RootFlags => o.rootflags
    case NfsRoot => o.nfsroot
    case Init => Some(o.init)
  }

  /** A pair `parse_option` does not accept: a value-requiring key without a value, or an
      `init` value that cannot become a C string. */
  predicate Rejected(t: Token)
  {
    (KeyOf(t.key).NeedsValue() && t.value.None?) ||
    (KeyOf(t.key).Init? && t.value.Some? && '\0' in t.value.value)
  }

  /** `parse_option`: the effect of one pair on the record. */
  function ApplyOption(o: Options, t: Token): (r: Outcome)
    // a key that needs a value fails without one, naming the key, and changes nothing
    ensures KeyOf(t.key).NeedsValue() && t.value.None? ==> r == Outcome(o, Err(MissingArgument(t.key)))
    ensures r.status.Err? ==> KeyOf(t.key).NeedsValue() && t.value.None?
    // the only panic: an `init` value holding a NUL
    ensures r.status.Panic? <==> KeyOf(t.key).Init? && t.value.Some? && '\0' in t.value.value
    ensures !r.status.Ok? ==> r.opts == o
    // an unrecognised key changes nothing
    ensures KeyOf(t.key).Unknown? ==> r == Outcome(o, Ok)
    ensures o.Valid() ==> r.opts.Valid()
    // whether a pair is accepted depends on the pair alone, not on the record
    ensures r.status.Ok? <==> !Rejected(t)
  {
    match KeyOf(t.key)
    case Root =>
      (match EnsureValue(t.key, t.value)
       case Missing(e) => Outcome(o, Err(e))
       case Value(v) => Outcome(o.(root := Some(v)), Ok))
    case RootFsType =>
      (match EnsureValue(t.key, t.value)
       case Missing(e) => Outcome(o, Err(e))
       case Value(v) => Outcome(o.(rootfstype := Some(v)), Ok))
    case RootFlags => Outcome(o.(rootflags := t.value), Ok)
    case Ro => Outcome(o.(rootfsflags := o.rootfsflags + {MS_RDONLY}), Ok)
    case Rw => Outcome(o.(rootfsflags := o.rootfsflags - {MS_RDONLY}), Ok)
    case NfsRoot =>
      (match EnsureValue(t.key, t.value)
       case Missing(e) => Outcome(o, Err(e))
       case Value(v) => Outcome(o.(nfsroot := Some(v)), Ok))
    case Init =>
      (match EnsureValue(t.key, t.value)
       case Missing(e) => Outcome(o, Err(e))
       case Value(v) => if '\0' in v then Outcome(o, Panic) else Outcome(o.(init := v), Ok))
    case Unknown => Outcome(o, Ok)
  }

  /** A scalar key that is applied stores its value verbatim and touches no other
      setting and no flag. */
  lemma ApplyScalar(o: Options, t: Token, k: Key)
    requires KeyOf(t.key).IsScalar() && k.IsScalar()
    requires ApplyOption(o, t).status.Ok?
    ensures Setting(ApplyOption(o, t).opts, k) == if k == KeyOf(t.key) then t.value else Setting(o, k)
    ensures ApplyOption(o, t).opts.rootfsflags == o.rootfsflags
  {
  }

  /** `ro` and `rw` set and clear the read-only bit, keep every other bit, and change
      nothing else. */
  lemma ApplyRoRw(o: Options, t: Token)
    requires KeyOf(t.key).Ro? || KeyOf(t.key).Rw?
    ensures ApplyOption(o, t).status.Ok?
    ensures ApplyOption(o, t).opts.ReadOnly() == KeyOf(t.key).Ro?
    ensures ApplyOption(o, t).opts.rootfsflags - {MS_RDONLY} == o.rootfsflags - {MS_RDONLY}
    ensures ApplyOption(o, t).opts == o.(rootfsflags := ApplyOption(o, t).opts.rootfsflags)
  {
  }

  /** The pairs applied in order, stopping at the first one that does not end normally. */
  function ApplyAll(o: Options, ts: seq<Token>): (r: Outcome)
    // a pass ends normally exactly when it holds no rejected pair
    ensures r.status.Ok? <==> forall i :: 0 <= i < |ts| ==> !Rejected(ts[i])
    decreases |ts|
  {
    if ts == [] then Outcome(o, Ok)
    else
      var r := ApplyOption(o, ts[0]);
      assert forall i :: 1 <= i < |ts| ==> ts[i] == ts[1..][i - 1];
      if r.status.Ok? then ApplyAll(r.opts, ts[1..]) else r
  }

  /** The error a pass ends in names the key of one of its pairs that lacks its value. */
  lemma {:induction false} PassErrorNamesPair(o: Options, ts: seq<Token>)
    requires ApplyAll(o, ts).status.Err?
    ensures exists i :: (0 <= i < |ts| && KeyOf(ts[i].key).NeedsValue() && ts[i].value.None? &&
      ApplyAll(o, ts).status == Err(MissingArgument(ts[i].key)))
    decreases |ts|
  {
    var r := ApplyOption(o, ts[0]);
    if r.status.Ok? {
      PassErrorNamesPair(r.opts, ts[1..]);
      var i :| 0 <= i < |ts[1..]| && KeyOf(ts[1..][i].key).NeedsValue() && ts[1..][i].value.None? &&
        ApplyAll(r.opts, ts[1..]).status == Err(MissingArgument(ts[1..][i].key));
      assert ts[i + 1] == ts[1..][i];
    } else {
      assert r == ApplyAll(o, ts);
    }
  }

  /** Applying `ts + us` applies `ts`, then, if that ended normally, `us`. */
  lemma {:induction false} ApplyAllAppend(o: Options, ts: seq<Token>, us: seq<Token>)
    ensures ApplyAll(o, ts + us) ==
      (var r := ApplyAll(o, ts); if r.status.Ok? then ApplyAll(r.opts, us) else r)
    decreases |ts|
  {
    if ts != [] {
      assert (ts + us)[0] == ts[0] && (ts + us)[1..] == ts[1..] + us;
      var r := ApplyOption(o, ts[0]);
      if r.status.Ok? {
        ApplyAllAppend(r.opts, ts[1..], us);
      }
    } else {
      assert ts + us == us;
    }
  }

  /** The value of the last pair in `ts` whose key is `k`, or `d` when there is none. */
  function LastValue(ts: seq<Token>, k: Key, d: Option<string>): Option<string>
  {
    if ts == [] then d
    else if KeyOf(ts[|ts| - 1].key) == k then ts[|ts| - 1].value
    else LastValue(ts[..|ts| - 1], k, d)
  }

  /** Whether the last `ro` or `rw` in `ts` is `ro`, or `d` when there is neither. */
  function LastReadOnly(ts: seq<Token>, d: bool): bool
  {
    if ts == [] then d
    else if KeyOf(ts[|ts| - 1].key).Ro? then true
    else if KeyOf(ts[|ts| - 1].key).Rw? then false
    else LastReadOnly(ts[..|ts| - 1], d)
  }

  /** Last occurrence wins: after a pass that ends normally, each scalar setting is the
      value of the last pair with its key (the default when there is none). */
  lemma {:induction false} LastSettingWins(o: Options, ts: seq<Token>, k: Key)
    requires k.IsScalar()
    requires ApplyAll(o, ts).status.Ok?
    ensures Setting(ApplyAll(o, ts).opts, k) == LastValue(ts, k, Setting(o, k))
  {
    if ts != [] {
      var init, last := ts[..|ts| - 1], ts[|ts| - 1];
      LastStep(o, ts);
      LastSettingWins(o, init, k);
      var mid := ApplyAll(o, init).opts;
      if KeyOf(last.key).IsScalar() {
        ApplyScalar(mid, last, k);
      } else if KeyOf(last.key).Ro? || KeyOf(last.key).Rw? {
        ApplyRoRw(mid, last);
      }
    }
  }

  /** Last occurrence wins for the read-only bit: the last `ro` or `rw` decides it, and
      no other mount flag ever changes. */
  lemma {:induction false} LastReadOnlyWins(o: Options, ts: seq<Token>)
    requires ApplyAll(o, ts).status.Ok?
    ensures ApplyAll(o, ts).opts.ReadOnly() == LastReadOnly(ts, o.ReadOnly())
    ensures ApplyAll(o, ts).opts.rootfsflags - {MS_RDONLY} == o.rootfsflags - {MS_RDONLY}
  {
    if ts != [] {
      var init, last := ts[..|ts| - 1], ts[|ts| - 1];
      LastStep(o, ts);
      LastReadOnlyWins(o, init);
      var mid := ApplyAll(o, init).opts;
      var r := ApplyOption(mid, last).opts;
      if KeyOf(last.key).Ro? || KeyOf(last.key).Rw? {
        ApplyRoRw(mid, last);
        assert r.rootfsflags - {MS_RDONLY} == mid.rootfsflags - {MS_RDONLY};
      } else {
        if KeyOf(last.key).IsScalar() {
          ApplyScalar(mid, last, Root);
        }
        assert r.rootfsflags == mid.rootfsflags;
        assert LastReadOnly(ts, o.ReadOnly()) == LastReadOnly(init, o.ReadOnly());
      }
    }
  }

  /** A pass over a non-empty list that ends normally is a normal pass over all but the
      last pair followed by the last pair. */
  lemma LastStep(o: Options, ts: seq<Token>)
    requires ts != [] && ApplyAll(o, ts).status.Ok?
    ensures ApplyAll(o, ts[..|ts| - 1]).status.Ok?
    ensures ApplyAll(o, ts) == ApplyOption(ApplyAll(o, ts[..|ts| - 1]).opts, ts[|ts| - 1])
  {
    var init, last := ts[..|ts| - 1], ts[|ts| - 1];
    assert ts == init + [last];
    ApplyAllAppend(o, init, [last]);
    var mid := ApplyAll(o, init);
    if mid.status.Ok? {
      assert [last][0] == last && [last][1..] == [];
      var r := ApplyOption(mid.opts, last);
      assert ApplyAll(mid.opts, [last]) == (if r.status.Ok? then ApplyAll(r.opts, []) else r);
    }
  }

  /** The mutable record handed to `parse_cmdline`. */
  class CmdlineOptions {
    var root: Option<string>
    var rootfstype: Option<string>
    var rootflags: Option<string>
    var rootfsflags: MountFlags
    var nfsroot: Option<string>
    var init: string

    function Value(): Options
      reads this
    {
      Options(root, rootfstype, rootflags, rootfsflags, nfsroot, init)
    }

    /** `CmdlineOptions::default()`. */
    constructor ()
      ensures Value() == Default
      ensures Value().Valid() && Value().ReadOnly()
    {
      root := None;
      rootfstype := None;
      rootflags := None;
      rootfsflags := {MS_RDONLY};
      nfsroot := None;
      init := SBIN_INIT;
    }
  }

  /** `parse_option`: assigns the field `key` names, or sets or clears the read-only bit. */
  method ParseOption(key: string, value: Option<string>, options: CmdlineOptions) returns (status: Status)
    modifies options
    ensures Outcome(options.Value(), status) == ApplyOption(old(options.Value()), Token(key, value))
  {
    status := Ok;
    match KeyOf(key) {
      case Root =>
        var r := EnsureValue(key, value);
        if r.Missing? { return Err(r.error); }
        options.root := Some(r.value);
      case RootFsType =>
        var r := EnsureValue(key, value);
        if r.Missing? { return Err(r.error); }
        options.rootfstype := Some(r.value);
      case RootFlags =>
        options.rootflags := value;
      case Ro =>
        options.rootfsflags := options.rootfsflags + {MS_RDONLY};
      case Rw =>
        options.rootfsflags := options.rootfsflags - {MS_RDONLY};
      case NfsRoot =>
        var r := EnsureValue(key, value);
        if r.Missing? { return Err(r.error); }
        options.nfsroot := Some(r.value);
      case Init =>
        var r := EnsureValue(key, value);
        if r.Missing? { return Err(r.error); }
        if '\0' in r.value { return Panic; }
        options.init := r.value;
      case Unknown =>
    }
  }
}
