/** The command lines of the unit tests of `parse_cmdline`, and a few more, with the record
    the parser leaves for each of them starting from the defaults.

    A command line given here as `Render(pairs)` is the pairs written `key=value`, separated
    by spaces and ended by a newline; the comment above it gives the line in full. Each
    example is split into the scan (which pairs the line yields), the pass (what applying
    them gives) and, for NFS, the resolution. */
module Examples {
  import opened Text
  import opened Options
  import opened Tokenizer
  import opened Nfsroot
  import opened Cmdline

  /** Scanning a line written from plain pairs gives those pairs. */
  lemma Scan(line: string, ts: seq<Token>)
    requires Render(ts) == line
    requires forall i :: 0 <= i < |ts| ==> Plain(ts[i])
    ensures Tokens(line) == ts
  {
    RenderRoundTrip(ts);
  }

  // ---- `root=/dev/mmcblk0p1 rw`: a local root, mounted read-write ----

  const RegularTokens := [Token("root", Some("/dev/mmcblk0p1")), Token("rw", None)]

  lemma RegularText(line: string)
    requires line == "root=/dev/mmcblk0p1 rw\n"
    ensures Render(RegularTokens) == line
  {
  }

  lemma RegularScan()
    ensures Tokens(Render(RegularTokens)) == RegularTokens
  {
    assert Plain(RegularTokens[0]) && Plain(RegularTokens[1]);
    RenderRoundTrip(RegularTokens);
  }

  lemma RegularPass()
    ensures ApplyAll(Default, RegularTokens) == Outcome(Default.(root := Some("/dev/mmcblk0p1"), rootfsflags := {}), Ok)
  {
  }

  lemma Regular(line: string, pnp: Option<string>)
    requires line == "root=/dev/mmcblk0p1 rw\n"
    ensures Parse(Default, line, pnp) == Outcome(Default.(root := Some("/dev/mmcblk0p1"), rootfsflags := {}), Ok)
  {
    RegularText(line);
    RegularScan();
    RegularPass();
  }

  // ---- `root=/dev/mmcblk0p1 init=/bin/sh`: another init program ----

  const InitTokens := [Token("root", Some("/dev/mmcblk0p1")), Token("init", Some("/bin/sh"))]

  lemma InitText(line: string)
    requires line == "root=/dev/mmcblk0p1 init=/bin/sh\n"
    ensures Render(InitTokens) == line
  {
  }

  lemma InitScan()
    ensures Tokens(Render(InitTokens)) == InitTokens
  {
    assert Plain(InitTokens[0]) && Plain(InitTokens[1]);
    RenderRoundTrip(InitTokens);
  }

  lemma InitPass()
    ensures ApplyAll(Default, InitTokens) == Outcome(Default.(root := Some("/dev/mmcblk0p1"), init := "/bin/sh"), Ok)
  {
  }

  lemma Init(line: string, pnp: Option<string>)
    requires line == "root=/dev/mmcblk0p1 init=/bin/sh\n"
    ensures Parse(Default, line, pnp) == Outcome(Default.(root := Some("/dev/mmcblk0p1"), init := "/bin/sh"), Ok)
  {
    InitText(line);
    InitScan();
    InitPass();
  }

  // ---- `root=/dev/nfs nfsroot=192.168.42.23:/path/to/nfsroot,v3,tcp ip=dhcp
  //      console=ttymxc1,115200n8 rootwait ro`: an NFS root whose path names its server ----

  const NfsRootValue := "192.168.42.23:/path/to/nfsroot,v3,tcp"
  const NfsHead := [Token("root", Some("/dev/nfs")), Token("nfsroot", Some(NfsRootValue)), Token("ip", Some("dhcp"))]
  const NfsTail := [Token("console", Some("ttymxc1,115200n8")), Token("rootwait", None), Token("ro", None)]
  const NfsPassed := Default.(root := Some("/dev/nfs"), nfsroot := Some(NfsRootValue))

  lemma NfsRootPlain()
    ensures PlainValue(NfsRootValue)
  {
  }

  lemma NfsHeadPlain()
    ensures forall i :: 0 <= i < |NfsHead| ==> Plain(NfsHead[i])
  {
    NfsRootPlain();
  }

  lemma NfsTailPlain()
    ensures forall i :: 0 <= i < |NfsTail| ==> Plain(NfsTail[i])
  {
  }

  lemma NfsScan()
    ensures Tokens(Render(NfsHead + NfsTail)) == NfsHead + NfsTail
  {
    NfsHeadPlain();
    NfsTailPlain();
    assert forall i :: 0 <= i < |NfsHead + NfsTail| ==> Plain((NfsHead + NfsTail)[i]);
    RenderRoundTrip(NfsHead + NfsTail);
  }

  /** `root=` and `nfsroot=` are stored; `ip=` is not a key of the parser. */
  lemma NfsHeadPass()
    ensures ApplyAll(Default, NfsHead) == Outcome(NfsPassed, Ok)
  {
    var o1 := Default.(root := Some("/dev/nfs"));
    assert ApplyOption(Default, NfsHead[0]) == Outcome(o1, Ok);
    assert ApplyOption(o1, NfsHead[1]) == Outcome(NfsPassed, Ok);
    assert ApplyOption(NfsPassed, NfsHead[2]) == Outcome(NfsPassed, Ok);
    assert ApplyAll(NfsPassed, NfsHead[2..]) == Outcome(NfsPassed, Ok);
    assert ApplyAll(o1, NfsHead[1..]) == ApplyAll(NfsPassed, NfsHead[2..]);
  }

  /** `console=` and `rootwait` are not keys of the parser, and `ro` is already in effect. */
  lemma NfsTailPass(o: Options)
    requires o.ReadOnly()
    ensures ApplyAll(o, NfsTail) == Outcome(o, Ok)
  {
    assert o.rootfsflags + {MS_RDONLY} == o.rootfsflags;
  }

  lemma NfsPass()
    ensures ApplyAll(Default, NfsHead + NfsTail) == Outcome(NfsPassed, Ok)
  {
    ApplyAllAppend(Default, NfsHead, NfsTail);
    NfsHeadPass();
    NfsTailPass(NfsPassed);
  }

  lemma NfsPath()
    ensures NfsRootValue == "192.168.42.23" + ":" + "/path/to/nfsroot" + ",v3,tcp"
  {
  }

  lemma NfsPathParts()
    ensures ',' !in "192.168.42.23" + ":" + "/path/to/nfsroot" && ':' !in "192.168.42.23"
  {
  }

  lemma NfsRootText()
    ensures "192.168.42.23" + ":" + "/path/to/nfsroot" == "192.168.42.23:/path/to/nfsroot"
  {
  }

  lemma NfsFlagsText()
    ensures "nolock" + ",v3,tcp" + ",addr=" + "192.168.42.23" == "nolock,v3,tcp,addr=192.168.42.23"
  {
  }

  /** The server part becomes `addr=`, the NFS options follow `nolock`, and
      `/proc/net/pnp` is not needed. */
  lemma Nfs(pnp: Option<string>)
    ensures Parse(Default, Render(NfsHead + NfsTail), pnp) == Outcome(Options(
      Some("192.168.42.23:/path/to/nfsroot"),
      Some("nfs"),
      Some("nolock,v3,tcp,addr=192.168.42.23"),
      {MS_RDONLY},
      Some(NfsRootValue),
      SBIN_INIT), Ok)
  {
    NfsScan();
    NfsPass();
    NfsPath();
    NfsPathParts();
    ResolveWithHost(NfsPassed, pnp, "192.168.42.23", "/path/to/nfsroot", ",v3,tcp");
    NfsRootText();
    NfsFlagsText();
  }

  // ---- `root=/dev/root rootfstype=9p rootflags=trans=virtio console=ttyAMA0,115200`:
  //      a 9p root under QEMU; the `=` after the first stays in the value ----

  const QemuHead := [Token("root", Some("/dev/root")), Token("rootfstype", Some("9p"))]
  const QemuTail := [Token("rootflags", Some("trans=virtio")), Token("console", Some("ttyAMA0,115200"))]
  const QemuMid := Default.(root := Some("/dev/root"), rootfstype := Some("9p"))
  const QemuPassed := QemuMid.(rootflags := Some("trans=virtio"))

  lemma QemuHeadPlain()
    ensures forall i :: 0 <= i < |QemuHead| ==> Plain(QemuHead[i])
  {
  }

  lemma QemuTailPlain()
    ensures forall i :: 0 <= i < |QemuTail| ==> Plain(QemuTail[i])
  {
    assert Plain(QemuTail[0]) && Plain(QemuTail[1]);
  }

  lemma QemuScan()
    ensures Tokens(Render(QemuHead + QemuTail)) == QemuHead + QemuTail
  {
    QemuHeadPlain();
    QemuTailPlain();
    assert forall i :: 0 <= i < |QemuHead + QemuTail| ==> Plain((QemuHead + QemuTail)[i]);
    RenderRoundTrip(QemuHead + QemuTail);
  }

  lemma QemuHeadPass()
    ensures ApplyAll(Default, QemuHead) == Outcome(QemuMid, Ok)
  {
    var o1 := Default.(root := Some("/dev/root"));
    assert ApplyOption(Default, QemuHead[0]) == Outcome(o1, Ok);
    assert ApplyOption(o1, QemuHead[1]) == Outcome(QemuMid, Ok);
    assert ApplyAll(QemuMid, QemuHead[2..]) == Outcome(QemuMid, Ok);
  }

  lemma QemuTailPass()
    ensures ApplyAll(QemuMid, QemuTail) == Outcome(QemuPassed, Ok)
  {
    assert ApplyOption(QemuMid, QemuTail[0]) == Outcome(QemuPassed, Ok);
    assert ApplyOption(QemuPassed, QemuTail[1]) == Outcome(QemuPassed, Ok);
    assert ApplyAll(QemuPassed, QemuTail[2..]) == Outcome(QemuPassed, Ok);
  }

  lemma Qemu9p(pnp: Option<string>)
    ensures Parse(Default, Render(QemuHead + QemuTail), pnp) ==
      Outcome(Default.(root := Some("/dev/root"), rootfstype := Some("9p"), rootflags := Some("trans=virtio")), Ok)
  {
    QemuScan();
    ApplyAllAppend(Default, QemuHead, QemuTail);
    QemuHeadPass();
    QemuTailPass();
  }

  // ---- `root=rootdev rootfstype=9p rootflags=trans=usbg,cache=loose,uname=root,dfltuid=0,
  //      dfltgid=0,aname=/path/to/9pfsroot rw`: a 9p root over USB gadget, read-write ----

  const UsbgFlags := "trans=usbg,cache=loose,uname=root," + "dfltuid=0,dfltgid=0,aname=/path/to/9pfsroot"
  const UsbgTokens := [Token("root", Some("rootdev")), Token("rootfstype", Some("9p")),
    Token("rootflags", Some(UsbgFlags)), Token("rw", None)]
  const UsbgPassed := Default.(root := Some("rootdev"), rootfstype := Some("9p"), rootflags := Some(UsbgFlags), rootfsflags := {})

  lemma UsbgFlagsPlain()
    ensures PlainValue(UsbgFlags)
  {
    assert PlainValue("trans=usbg,cache=loose,uname=root,");
    assert PlainValue("dfltuid=0,dfltgid=0,aname=/path/to/9pfsroot");
  }

  lemma UsbgPlain()
    ensures forall i :: 0 <= i < |UsbgTokens| ==> Plain(UsbgTokens[i])
  {
    UsbgFlagsPlain();
    assert Plain(UsbgTokens[2]);
  }

  lemma UsbgPass()
    ensures ApplyAll(Default, UsbgTokens) == Outcome(UsbgPassed, Ok)
  {
    var o1 := Default.(root := Some("rootdev"));
    var o2 := o1.(rootfstype := Some("9p"));
    var o3 := o2.(rootflags := Some(UsbgFlags));
    assert ApplyOption(Default, UsbgTokens[0]) == Outcome(o1, Ok);
    assert ApplyOption(o1, UsbgTokens[1]) == Outcome(o2, Ok);
    assert ApplyOption(o2, UsbgTokens[2]) == Outcome(o3, Ok);
    assert ApplyOption(o3, UsbgTokens[3]) == Outcome(UsbgPassed, Ok);
    assert ApplyAll(o3, UsbgTokens[3..]) == Outcome(UsbgPassed, Ok);
    assert ApplyAll(o2, UsbgTokens[2..]) == ApplyAll(o3, UsbgTokens[3..]);
    assert ApplyAll(o1, UsbgTokens[1..]) == ApplyAll(o2, UsbgTokens[2..]);
  }

  lemma Usbg9p(pnp: Option<string>)
    ensures Parse(Default, Render(UsbgTokens), pnp) == Outcome(UsbgPassed, Ok)
  {
    UsbgPlain();
    RenderRoundTrip(UsbgTokens);
    UsbgPass();
  }

  // ---- further cases ----

  const NoNfsrootTokens := [Token("root", Some("/dev/nfs")), Token("ro", None)]

  lemma NoNfsrootText(line: string)
    requires line == "root=/dev/nfs ro\n"
    ensures Render(NoNfsrootTokens) == line
  {
  }

  lemma NoNfsrootPass()
    ensures ApplyAll(Default, NoNfsrootTokens) == Outcome(Default.(root := Some("/dev/nfs")), Ok)
  {
    assert {MS_RDONLY} + {MS_RDONLY} == {MS_RDONLY};
  }

  /** `root=/dev/nfs ro` without `nfsroot=`: resolution fails and the record is the pass's. */
  lemma NfsWithoutNfsroot(line: string, pnp: Option<string>)
    requires line == "root=/dev/nfs ro\n"
    ensures Parse(Default, line, pnp) == Outcome(Default.(root := Some("/dev/nfs")), Err(MissingNfsRoot))
  {
    NoNfsrootText(line);
    assert Plain(NoNfsrootTokens[0]) && Plain(NoNfsrootTokens[1]);
    Scan(line, NoNfsrootTokens);
    NoNfsrootPass();
  }

  /** `rw root`: `root` without `=` aborts the pass after `rw` took effect. */
  lemma RootWithoutValue(line: string, pnp: Option<string>)
    requires line == "rw root\n"
    ensures Parse(Default, line, pnp) == Outcome(Default.(rootfsflags := {}), Err(MissingArgument("root")))
  {
    var ts := [Token("rw", None), Token("root", None)];
    assert Render(ts) == line;
    assert Plain(ts[0]) && Plain(ts[1]);
    Scan(line, ts);
    assert ApplyAll(Default, ts) == Outcome(Default.(rootfsflags := {}), Err(MissingArgument("root")));
  }

  /** `root=/dev/sda1 rw` without the final newline: the last pair is never dispatched. */
  lemma UnterminatedLine(line: string, pnp: Option<string>)
    requires line == "root=/dev/sda1 rw"
    ensures Parse(Default, line, pnp) == Outcome(Default.(root := Some("/dev/sda1")), Ok)
  {
    var t := Token("root", Some("/dev/sda1"));
    assert Plain(t);
    PlainWord(t, ' ');
    assert Word(t) + [' '] + "rw" == line;
    TrailingNotDispatched(Word(t) + [' '], "rw");
    assert ApplyAll(Default, [t]) == Outcome(Default.(root := Some("/dev/sda1")), Ok);
  }

  lemma QuotedText(line: string)
    requires line == "init=\"/bin/sh -x\"\n"
    ensures line == "init" + "=\"" + "/bin/sh -x" + "\"" + ['\n']
  {
  }

  lemma QuotedScan(k: string, v: string)
    requires k == "init" && v == "/bin/sh -x"
    ensures Tokens(k + "=\"" + v + "\"" + ['\n']) == [Token(k, Some(v))]
  {
    QuotedWord(k, v, '\n');
  }

  /** `init="/bin/sh -x"`: the space between quotes belongs to the value, the quotes do not. */
  lemma QuotedInit(line: string, pnp: Option<string>)
    requires line == "init=\"/bin/sh -x\"\n"
    ensures Parse(Default, line, pnp) == Outcome(Default.(init := "/bin/sh -x"), Ok)
  {
    QuotedText(line);
    QuotedScan("init", "/bin/sh -x");
    assert ApplyAll(Default, [Token("init", Some("/bin/sh -x"))]) == Outcome(Default.(init := "/bin/sh -x"), Ok);
  }

  /** `init=` with a NUL byte in its value cannot become a C string: the parser panics. */
  lemma NulInInit(line: string, pnp: Option<string>)
    requires line == "init=a\0b\n"
    ensures Parse(Default, line, pnp) == Outcome(Default, Panic)
  {
    var t := Token("init", Some("a\0b"));
    assert Plain(t);
    PlainWord(t, '\n');
    assert Word(t) + ['\n'] == line;
  }

  lemma PnpText(s: string)
    requires s == "nameserver 10.0.0.53\nbootserver 10.0.0.1\n"
    ensures s == "nameserver 10.0.0.53" + ['\n'] + "bootserver 10.0.0.1\n"
  {
  }

  lemma PnpLastLine(r: string)
    requires r == "bootserver 10.0.0.1\n"
    ensures Lines(r) == ["bootserver 10.0.0.1"]
  {
    SplitOnceAt(r, '\n', "bootserver 10.0.0.1", []);
    assert Lines([]) == [];
  }

  lemma PnpLines(s: string)
    requires s == "nameserver 10.0.0.53\nbootserver 10.0.0.1\n"
    ensures Lines(s) == ["nameserver 10.0.0.53", "bootserver 10.0.0.1"]
  {
    var r := "bootserver 10.0.0.1\n";
    PnpText(s);
    SplitOnceAt(s, '\n', "nameserver 10.0.0.53", r);
    PnpLastLine(r);
  }

  lemma KeyValueLine(l: string, k: string, v: string)
    requires l == k + " " + v && ' ' !in k
    ensures SplitOnce(l, ' ') == Some((k, v))
  {
    SplitOnceAt(l, ' ', k, v);
  }

  lemma NameserverLine(l: string)
    requires l == "nameserver 10.0.0.53"
    ensures SplitOnce(l, ' ') == Some(("nameserver", "10.0.0.53"))
  {
    KeyValueLine(l, "nameserver", "10.0.0.53");
  }

  lemma BootserverLine(l: string)
    requires l == "bootserver 10.0.0.1"
    ensures SplitOnce(l, ' ') == Some(("bootserver", "10.0.0.1"))
  {
    KeyValueLine(l, "bootserver", "10.0.0.1");
  }

  /** The first line is skipped; the second is the `bootserver` line. */
  lemma PnpBootserver(l0: string, l1: string)
    requires SplitOnce(l0, ' ') == Some(("nameserver", "10.0.0.53"))
    requires SplitOnce(l1, ' ') == Some(("bootserver", "10.0.0.1"))
    ensures Bootserver([l0, l1]) == Some("10.0.0.1")
  {
    assert [l0, l1][1..] == [l1];
    assert [l1][1..] == [];
  }

  lemma ServerText()
    ensures "/srv/root" + [] == "/srv/root" && ',' !in "/srv/root" && ':' !in "/srv/root"
    ensures "10.0.0.1" + ":" + "/srv/root" == "10.0.0.1:/srv/root"
    ensures "nolock" + [] + ",addr=" + "10.0.0.1" == "nolock,addr=10.0.0.1"
  {
  }

  /** `nfsroot=/srv/root` names no server: the `bootserver` line of `/proc/net/pnp`
      supplies it, for the path and for `addr=`. */
  lemma ServerFromPnp(o: Options, pnp: string)
    requires o.nfsroot == Some("/srv/root")
    requires pnp == "nameserver 10.0.0.53\nbootserver 10.0.0.1\n"
    ensures ResolveNfs(o, Some(pnp)) ==
      Outcome(o.(root := Some("10.0.0.1:/srv/root"), rootflags := Some("nolock,addr=10.0.0.1"), rootfstype := Some("nfs")), Ok)
  {
    PnpLines(pnp);
    var lines := Lines(pnp);
    NameserverLine(lines[0]);
    BootserverLine(lines[1]);
    assert lines == [lines[0], lines[1]];
    PnpBootserver(lines[0], lines[1]);
    ServerText();
    ResolveWithoutHost(o, Some(pnp), "/srv/root", []);
  }
}
