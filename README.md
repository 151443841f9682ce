# Kernel command-line parsing of rsinit, in Dafny

rsinit is a small init program for embedded Linux systems. Before it mounts the root
file system, it reads the kernel command line and fills a `CmdlineOptions` record:
- `root`, `rootfstype`, `rootflags`;
- the read-only mount flag;
- `nfsroot`;
- the `init` program to run.

This project models that parser, `src/cmdline.rs`, and proves properties of it.

The parser has three parts:
- **Scanning.** A character-by-character loop splits the line into `key` or `key=value`
  pairs at unquoted spaces and newlines. Only the first `=` separates; double quotes group
  text and are dropped. A pair is applied when its separator is reached.
- **Applying a pair** (`parse_option`). `root`, `rootfstype`, `nfsroot` and `init`
  require a value, `rootflags` takes an optional one, and `ro`/`rw` set or clear the
  read-only bit. Any other key is ignored.
- **NFS resolution** (`parse_nfsroot`). It runs when the root is `/dev/nfs` or the file
  system type is `nfs`. It derives the final `root`, `rootflags` (`nolock`, the options
  given after the path, then `addr=<server>`) and `rootfstype`. The server comes from
  `nfsroot=` itself, or from the `bootserver` line of `/proc/net/pnp`.

Modules:
- `Text` (`text.dfy`): `split_once` and `lines` on strings.
- `Options` (`options.dfy`):
  - the record as a value;
  - the mutable `CmdlineOptions` class;
  - `ensure_value` and `parse_option`, as a function on values and as a method on the
    class.
- `Tokenizer` (`tokenizer.dfy`): the scanning loop as a state machine over the loop's
  variables (`have_value`, `quoted`, `key`, `value`).
- `Nfsroot` (`nfsroot.dfy`): `parse_nfsroot`, as a function and as a method with the
  original line-scanning loop.
- `Cmdline` (`cmdline.dfy`): `parse_cmdline`, as a function and as the original loop.
  The loop is proved to compute the function.
- `Examples` (`examples.dfy`):
  - the five unit tests of `src/cmdline.rs`;
  - further cases: a missing `nfsroot=`, a key missing its value, an unterminated line,
    a quoted value, a NUL byte in `init`, and a server taken from `/proc/net/pnp`.

  Three of the unit-test command lines are long. They are written as
  `Render([...pairs...])`: the pairs joined by spaces and ended by a newline. The
  comment beside each gives the line in full.

Results are an `Outcome`: the record and a `Status`. The status is one of:
- `Ok`;
- `Err(MissingArgument(key))`;
- `Err(MissingNfsRoot)`;
- `Err(PnpUnavailable)`: `/proc/net/pnp` could not be read;
- `Panic`: the source's `unwrap` on a C string holding a NUL.

After a failure, the record is what it was when the failing step began. Earlier pairs
keep their effect, as in the source, where `?` returns with the record already updated.

### Behaviour worth noting

- **`rootflags` without a value.** A bare `rootflags` does not fail. The optional value is
  stored as given, so the setting is cleared (`src/cmdline.rs:44`).
- **Text after the last separator.** Nothing is applied after the loop ends. Text after
  the last space or newline, or text still inside quotes, is dropped
  (`src/cmdline.rs:133`). `Tokenizer.TrailingNotDispatched` proves this.
- **A NUL byte in an `init=` value.** It is not reported as an error: the parser panics in
  `CString::new(..).unwrap()` (`src/cmdline.rs:48`). The model's status is `Panic`.

## Model

| member | source | states |
|---|---|---|
| Text.SplitOnce | src/cmdline.rs:60 | `split_once`: no split exactly when the character is absent; otherwise the text is `before + c + after`, with `c` absent from `before`, so this is the first occurrence |
| Text.SplitOnceAt | src/cmdline.rs:73 | any decomposition at a first occurrence is the one `split_once` returns |
| Text.StripCr | src/cmdline.rs:72 | a line ending in a carriage return loses exactly that one character; any other line is unchanged |
| Text.Lines | src/cmdline.rs:72 | no line holds a newline; for text without carriage returns, writing the lines back, each followed by a newline, restores the text (with a newline added when the text did not end in one) |
| Options.EnsureValue | src/cmdline.rs:32-38 | a value is returned exactly when one was given, unchanged; otherwise the error names the key |
| Options.KeyOf | src/cmdline.rs:41-49 | a key is unrecognised exactly when it is none of `root`, `rootfstype`, `rootflags`, `ro`, `rw`, `nfsroot`, `init` |
| Options.Default | src/cmdline.rs:19-29 | the defaults: nothing set, read-only, init `/sbin/init` |
| Options.ApplyOption | src/cmdline.rs:40-52 | a value-requiring key without a value fails naming the key and changes nothing; that is the only error; the only panic is an `init` value holding a NUL; a failure leaves the record as it was; unknown keys change nothing; a NUL-free `init` stays NUL-free; whether a pair is accepted depends on the pair alone: it is rejected exactly for a value-requiring key without a value or an `init` value holding a NUL |
| Options.ApplyAll | src/cmdline.rs:116 | the pairs are applied in order, stopping at the first failure; a pass ends normally exactly when none of its pairs is rejected |
| Options.PassErrorNamesPair | src/cmdline.rs:116 | the error a pass ends in names the key of one of its pairs that came without a value although its key needs one |
| Options.ApplyScalar | src/cmdline.rs:42-48 | an applied `root`/`rootfstype`/`rootflags`/`nfsroot`/`init` stores its value verbatim in its own field; every other field and the flags are untouched |
| Options.ApplyRoRw | src/cmdline.rs:45-46 | `ro` and `rw` always succeed; afterwards the record is read-only exactly for `ro`; no other flag and no other field changes |
| Options.ApplyAllAppend | src/cmdline.rs:116 | applying pairs `ts + us` applies `ts`, then `us` only if `ts` ended normally |
| Options.LastSettingWins | src/cmdline.rs:42-48 | after a pass that ends normally, each setting holds the value of the last pair naming it, or its initial value if none does |
| Options.LastReadOnlyWins | src/cmdline.rs:45-46 | after a pass that ends normally, the read-only bit is decided by the last `ro` or `rw`, or keeps its initial state; other flag bits are unchanged |
| Options.LastStep | src/cmdline.rs:116 | a pass that ends normally ended normally before its last pair, and its result is that pair applied to the earlier result |
| Options.CmdlineOptions.constructor | src/cmdline.rs:19-29 | the new record holds the defaults: nothing set, read-only, init `/sbin/init` |
| Options.ParseOption | src/cmdline.rs:40-52 | the record after the call, and the status returned, are exactly `ApplyOption` of the record before |
| Tokenizer.Step | src/cmdline.rs:101-132 | one loop iteration: a pair is dispatched exactly at an unquoted space or newline after a non-empty key, and it is the buffered key and value; such a separator resets the state; a quote toggles quoting and is dropped; only the first `=` is dropped; a separator inside quotes is kept |
| Tokenizer.Run | src/cmdline.rs:100-133 | the loop over a string: every dispatched pair has a non-empty key; starting from a key without `=`, no key, buffered or dispatched, ever holds an `=` |
| Tokenizer.Tokens | src/cmdline.rs:100-133 | every pair dispatched from a command line has a non-empty key without `=` |
| Tokenizer.RunAppend | src/cmdline.rs:100-133 | scanning `a + b` scans `a`, then `b` from the state `a` left, and dispatches both runs' pairs in order |
| Tokenizer.RunSnoc | src/cmdline.rs:100 | scanning one more character is one more loop iteration |
| Tokenizer.StepClean | src/cmdline.rs:109-112 | no iteration puts a quote into a buffer or into a dispatched pair |
| Tokenizer.NoQuotes | src/cmdline.rs:109-112 | from quote-free buffers, no run puts a quote into a buffer or into any dispatched pair |
| Tokenizer.TokensQuoteFree | src/cmdline.rs:109-112 | no pair dispatched from any command line contains a double quote |
| Tokenizer.NoSeparatorNoDispatch | src/cmdline.rs:113-123 | text without a space or newline dispatches nothing |
| Tokenizer.QuotedNoDispatch | src/cmdline.rs:109-123 | inside quotes, text without a closing quote dispatches nothing and stays quoted |
| Tokenizer.TrailingNotDispatched | src/cmdline.rs:133 | text after the last separator, or after an opening quote that stays unclosed, adds no pair |
| Tokenizer.KeyText | src/cmdline.rs:126-131 | unquoted key text without `=`, quotes or separators is appended to the key |
| Tokenizer.ValueText | src/cmdline.rs:126-131 | once a value has started, text without quotes (and without separators unless quoted) is appended to the value, every `=` included |
| Tokenizer.PlainWord | src/cmdline.rs:101-132 | a plain `key` or `key=value` followed by a separator dispatches exactly that pair, every `=` after the first kept in the value, and returns to the initial state |
| Tokenizer.OpenQuote | src/cmdline.rs:103-112 | `="` after a key starts the value, quoted |
| Tokenizer.CloseQuote | src/cmdline.rs:109-123 | a closing quote, then a separator, dispatches the buffered pair |
| Tokenizer.QuotedWord | src/cmdline.rs:109-123 | `key="value"` dispatches the value as one piece without the quotes, even with spaces, newlines or `=` inside |
| Tokenizer.RenderRoundTrip | src/cmdline.rs:100-133 | plain pairs written separated by spaces and ended by a newline scan back to exactly those pairs, in order |
| Nfsroot.Bootserver | src/cmdline.rs:72-83 | no server is found exactly when no line's key, up to its first space, is `bootserver` |
| Nfsroot.BootserverFirst | src/cmdline.rs:72-83 | the server found is the value of the first `bootserver` line: that line reads `bootserver <value>` and no earlier line is a `bootserver` line |
| Nfsroot.SplitNfsroot | src/cmdline.rs:58-67 | `nfsroot` is the comma-free path followed by the rest, which is empty or starts with the comma |
| Nfsroot.Mount | src/cmdline.rs:88-90 | the NFS options written always start with `nolock` |
| Nfsroot.ResolveNfs | src/cmdline.rs:54-92 | never panics; a failure leaves the record as it was; fails for a missing `nfsroot` exactly when it is unset; fails for an unreadable `/proc/net/pnp` exactly when the path has no `:` and the file cannot be read; on success it sets `root`, `rootflags` and `rootfstype = nfs` and changes nothing else; `rootflags` starts with `nolock` |
| Nfsroot.SplitNfsrootAt | src/cmdline.rs:60-67 | a comma-free path followed by nothing or by `,options` splits back into those parts |
| Nfsroot.ResolveWithHost | src/cmdline.rs:84-87 | for `host:dir[,options]`: `root` is `host:dir` and `rootflags` is `nolock[,options],addr=host`, whatever `/proc/net/pnp` holds |
| Nfsroot.ResolveWithoutHost | src/cmdline.rs:69-83 | for a path without `:`: an unreadable `/proc/net/pnp` is an error; with no `bootserver` line, `root` is the bare path and `rootflags` ends in `addr=`; otherwise, with that line's value `v`, `root` is `v:path` and `rootflags` ends in `addr=v` |
| Nfsroot.ParseNfsroot | src/cmdline.rs:54-92 | the record after the call, and the status returned, are exactly `ResolveNfs` of the record before |
| Cmdline.Parse | src/cmdline.rs:94-138 | a pass that fails is the result; after a normal pass, the result is the pass itself when NFS is not selected and `ResolveNfs` of the pass when it is; `nfsroot`, `init` and the flags are always those of the pass; after a normal pass and resolution, the root is on NFS exactly when NFS was selected; the result is a missing-`nfsroot` error exactly when NFS was selected and `nfsroot` is unset; a NUL-free `init` stays NUL-free |
| Cmdline.NfsSelected | src/cmdline.rs:134 | the trigger of NFS resolution: root `/dev/nfs` or file system type `nfs` |
| Cmdline.LocalRootLastWins | src/cmdline.rs:94-138 | when a normal pass does not select NFS, the parse ends normally, every setting is the value of the last pair naming it (or its initial value), and the last `ro`/`rw` decides the read-only bit |
| Cmdline.PassKeepsValid | src/cmdline.rs:48 | a whole pass keeps `init` free of NUL bytes |
| Cmdline.NfsrootNeverCleared | src/cmdline.rs:47 | once `nfsroot` is set, no later pair unsets it; the only error a pass can end in is a missing argument |
| Cmdline.MissingArgumentAborts | src/cmdline.rs:116 | a value-requiring key without `=` ends the whole parse: the pairs before it keep their effect, nothing after it is applied, NFS resolution does not run, and the error names the key |
| Cmdline.ParseCmdline | src/cmdline.rs:94-138 | the record after the call, and the status returned, are exactly `Parse` of the record before |
| Cmdline.AbortedPass | src/cmdline.rs:116 | once the pairs of a prefix of the line end in a failure, the whole parse ends in that failure, whatever `/proc/net/pnp` holds |
| Examples.Regular | src/cmdline.rs:145-158 | `root=/dev/mmcblk0p1 rw`: root set, read-write, all else default |
| Examples.Nfs | src/cmdline.rs:161-183 | the NFS test line: root `192.168.42.23:/path/to/nfsroot`, type `nfs`, options `nolock,v3,tcp,addr=192.168.42.23`, read-only, `nfsroot` kept |
| Examples.Qemu9p | src/cmdline.rs:186-201 | the QEMU 9p test line: root `/dev/root`, type `9p`, options `trans=virtio`, read-only |
| Examples.Usbg9p | src/cmdline.rs:204-220 | the USB-gadget 9p test line: root `rootdev`, type `9p`, the full option string, read-write |
| Examples.Init | src/cmdline.rs:223-236 | `root=/dev/mmcblk0p1 init=/bin/sh`: init `/bin/sh`, read-only |
| Examples.NfsWithoutNfsroot | src/cmdline.rs:55-57 | `root=/dev/nfs ro` fails for the missing `nfsroot`, keeping the pass's record |
| Examples.RootWithoutValue | src/cmdline.rs:42 | `rw root` fails naming `root`, after `rw` took effect |
| Examples.UnterminatedLine | src/cmdline.rs:133 | in `root=/dev/sda1 rw` without a final newline, `rw` is never applied |
| Examples.QuotedInit | src/cmdline.rs:109-112 | `init="/bin/sh -x"` sets init to `/bin/sh -x` |
| Examples.NulInInit | src/cmdline.rs:48 | an `init` value with a NUL byte panics, leaving the defaults |
| Examples.ServerFromPnp | src/cmdline.rs:72-83 | with `nfsroot=/srv/root`, the second line `bootserver 10.0.0.1` of `/proc/net/pnp` gives root `10.0.0.1:/srv/root` and options `nolock,addr=10.0.0.1` |

## Left out

- Reading `/proc/net/pnp` is file I/O. Its contents are the parameter `pnp`, and `None` stands for a failed read. The path is not modelled.
- Error messages: only the kind of error and the key it names are modelled, not the formatted text or the boxed error type.
- A panic is the status `Panic` with the record as it was before the failing pair. Ending the process is not modelled.
- `MsFlags` is the set of the bit values that are set, not a bit mask. Only `MS_RDONLY` is ever touched.
- `init` is the text of the C string, without the NUL terminator. The C string's memory representation is not modelled.
