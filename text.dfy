/** String helpers standing for the few `str` methods the command-line parser uses:
    `split_once` on a character, `contains` and `lines`. */
module Text {

  datatype Option<T> = None | Some(value: T)

  /** `s.split_once(c)`: the text before and after the first `c`, or None when `c` does not occur. */
  function SplitOnce(s: string, c: char): (r: Option<(string, string)>)
    ensures r.None? <==> c !in s
    ensures r.Some? ==> s == r.value.0 + [c] + r.value.1 && c !in r.value.0
  {
    if s == [] then None
    else if s[0] == c then Some(([], s[1..]))
    else match SplitOnce(s[1..], c)
      case None => None
      case Some((before, after)) =>
        assert s == [s[0]] + s[1..];
        Some(([s[0]] + before, after))
  }

  /** A split at a given first occurrence is the one SplitOnce finds. */
  lemma {:induction false} SplitOnceAt(s: string, c: char, before: string, after: string)
    requires s == before + [c] + after && c !in before
    ensures SplitOnce(s, c) == Some((before, after))
  {
    if before == [] {
      assert s[0] == c && s[1..] == after;
    } else {
      assert s[0] == before[0] != c;
      assert s[1..] == before[1..] + [c] + after;
      SplitOnceAt(s[1..], c, before[1..], after);
      assert before == [before[0]] + before[1..];
    }
  }

  /** The lines of `ls` written back, each followed by a newline. */
  function Terminated(ls: seq<string>): string
  {
    if ls == [] then [] else ls[0] + ['\n'] + Terminated(ls[1..])
  }

  /** A line ended by `\r\n` loses the carriage return as well. */
  function StripCr(line: string): (r: string)
    ensures line != [] && line[|line| - 1] == '\r' ==> line == r + ['\r']
    ensures (line == [] || line[|line| - 1] != '\r') ==> r == line
  {
    if line != [] && line[|line| - 1] == '\r' then line[..|line| - 1] else line
  }

  /** `s.lines()`: the pieces of `s` between newlines, where a final newline does not
      start a further, empty line, and a carriage return just before a newline is dropped. */
  function Lines(s: string): (r: seq<string>)
    ensures forall i :: 0 <= i < |r| ==> '\n' !in r[i]
    // without carriage returns, writing the lines back with newlines restores `s`
    ensures '\r' !in s && (s == [] || s[|s| - 1] == '\n') ==> Terminated(r) == s
    ensures '\r' !in s && s != [] && s[|s| - 1] != '\n' ==> Terminated(r) == s + ['\n']
    decreases |s|
  {
    if s == [] then []
    else match SplitOnce(s, '\n')
      case None => [s]
      case Some((line, rest)) =>
        var r := [StripCr(line)] + Lines(rest);
        assert r[1..] == Lines(rest);
        assert rest != [] ==> rest[|rest| - 1] == s[|s| - 1];
        assert '\r' !in s ==> '\r' !in line && '\r' !in rest;
        r
  }
}
