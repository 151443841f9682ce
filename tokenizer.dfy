/** The character-by-character scanner of `parse_cmdline`, as a state machine over
    the loop's variables `have_value`, `quoted`, `key` and `value`. */
module Tokenizer {
  import opened Text
  import opened Options

  datatype Lexer = Lexer(haveValue: bool, quoted: bool, key: string, value: string)

  /** The state before the first character and after every unquoted separator. */
  const Start: Lexer := Lexer(false, false, [], [])

  predicate IsSeparator(c: char) { c == ' ' || c == '\n' }

  /** The pair the current buffers make when a separator ends them. */
  function Pending(l: Lexer): Token
  {
    Token(l.key, if l.haveValue then Some(l.value) else None)
  }

  /** One iteration of the loop: the state after `c`, and the pair dispatched, if any. */
  function Step(l: Lexer, c: char): (r: (Lexer, Option<Token>))
    // dispatch rule: a pair is dispatched exactly at an unquoted separator after a non-empty key
    ensures r.1.Some? <==> IsSeparator(c) && !l.quoted && l.key != []
    ensures r.1.Some? ==> r.1.value == Pending(l)
    // an unquoted separator empties both buffers and clears `have_value`
    ensures IsSeparator(c) && !l.quoted ==> r.0 == Start
    // a quote toggles quoting and is dropped
    ensures c == '"' ==> r.0 == l.(quoted := !l.quoted)
    // only the first `=` is dropped; a later one is kept in the value
    ensures c == '=' ==> r.0 == if l.haveValue then l.(value := l.value + ['=']) else l.(haveValue := true)
    // inside quotes a separator is an ordinary character
    ensures l.quoted && IsSeparator(c) ==>
      r.0 == if l.haveValue then l.(value := l.value + [c]) else l.(key := l.key + [c])
  {
    if c == '=' then
      (if l.haveValue then l.(value := l.value + [c]) else l.(haveValue := true), None)
    else if c == '"' then
      (l.(quoted := !l.quoted), None)
    else if IsSeparator(c) && !l.quoted then
      (Start, if l.key != [] then Some(Pending(l)) else None)
    else if l.haveValue then
      (l.(value := l.value + [c]), None)
    else
      (l.(key := l.key + [c]), None)
  }

  function Dispatched(t: Option<Token>): seq<Token>
  {
    if t.Some? then [t.value] else []
  }

  /** The loop run over `s` from state `l`: the final state and the pairs dispatched, in order. */
  function Run(l: Lexer, s: string): (r: (Lexer, seq<Token>))
    // a pair is dispatched only when its key is non-empty
    ensures forall i :: 0 <= i < |r.1| ==> r.1[i].key != []
    // the first `=` ends the key, so no key, buffered or dispatched, ever holds one
    ensures '=' !in l.key ==> '=' !in r.0.key && forall i :: 0 <= i < |r.1| ==> '=' !in r.1[i].key
    decreases |s|
  {
    if s == [] then (l, [])
    else
      var step := Step(l, s[0]);
      var rest := Run(step.0, s[1..]);
      (rest.0, Dispatched(step.1) + rest.1)
  }

  /** The pairs `parse_cmdline` dispatches for a whole command line. */
  function Tokens(s: string): (r: seq<Token>)
    ensures forall i :: 0 <= i < |r| ==> r[i].key != [] && '=' !in r[i].key
  {
    Run(Start, s).1
  }

  /** Scanning `a + b` scans `a`, then `b` from the state `a` left. */
  lemma {:induction false} RunAppend(l: Lexer, a: string, b: string)
    ensures Run(l, a + b) ==
      (Run(Run(l, a).0, b).0, Run(l, a).1 + Run(Run(l, a).0, b).1)
    decreases |a|
  {
    if a == [] {
      assert a + b == b;
      assert Run(l, a) == (l, []);
      assert [] + Run(l, b).1 == Run(l, b).1;
    } else {
      assert (a + b)[0] == a[0] && (a + b)[1..] == a[1..] + b;
      var step := Step(l, a[0]);
      RunAppend(step.0, a[1..], b);
      var ra := Run(step.0, a[1..]);
      var rb := Run(ra.0, b);
      assert Run(l, a) == (ra.0, Dispatched(step.1) + ra.1);
      assert Run(l, a + b) == (rb.0, Dispatched(step.1) + (ra.1 + rb.1));
      assert Dispatched(step.1) + (ra.1 + rb.1) == (Dispatched(step.1) + ra.1) + rb.1;
    }
  }

  lemma RunSingle(l: Lexer, c: char)
    ensures Run(l, [c]) == (Step(l, c).0, Dispatched(Step(l, c).1))
  {
    assert [c][1..] == [];
    assert Dispatched(Step(l, c).1) + [] == Dispatched(Step(l, c).1);
  }

  /** Scanning one more character is one more step. */
  lemma RunSnoc(l: Lexer, s: string, c: char)
    ensures Run(l, s + [c]) ==
      (Step(Run(l, s).0, c).0, Run(l, s).1 + Dispatched(Step(Run(l, s).0, c).1))
  {
    RunAppend(l, s, [c]);
    var m := Run(l, s).0;
    assert [c][1..] == [];
    assert Run(Step(m, c).0, []) == (Step(m, c).0, []);
    assert Run(m, [c]) == (Step(m, c).0, Dispatched(Step(m, c).1) + []);
    assert Dispatched(Step(m, c).1) + [] == Dispatched(Step(m, c).1);
  }

  predicate QuoteFree(t: Token)
  {
    '"' !in t.key && (t.value.Some? ==> '"' !in t.value.value)
  }

  /** Neither buffer holds a quote. */
  predicate Clean(l: Lexer)
  {
    '"' !in l.key && '"' !in l.value
  }

  lemma StepClean(l: Lexer, c: char)
    requires Clean(l)
    ensures Clean(Step(l, c).0)
    ensures Step(l, c).1.Some? ==> QuoteFree(Step(l, c).1.value)
  {
    if c != '"' {
      assert '"' !in [c];
      assert '"' !in l.key + [c] && '"' !in l.value + [c];
    }
  }

  /** A `"` never reaches a key or a value, whether dispatched or still buffered. */
  lemma {:induction false} NoQuotes(l: Lexer, s: string)
    requires Clean(l)
    ensures Clean(Run(l, s).0)
    ensures forall i :: 0 <= i < |Run(l, s).1| ==> QuoteFree(Run(l, s).1[i])
    decreases |s|
  {
    if s != [] {
      var step := Step(l, s[0]);
      StepClean(l, s[0]);
      NoQuotes(step.0, s[1..]);
      var rest := Run(step.0, s[1..]);
      assert Run(l, s).1 == Dispatched(step.1) + rest.1;
    }
  }

  /** Every pair of a command line is free of quotes. */
  lemma TokensQuoteFree(s: string)
    ensures forall i :: 0 <= i < |Tokens(s)| ==> QuoteFree(Tokens(s)[i])
  {
    NoQuotes(Start, s);
  }

  /** Text with no separator dispatches nothing. */
  lemma {:induction false} NoSeparatorNoDispatch(l: Lexer, w: string)
    requires forall i :: 0 <= i < |w| ==> !IsSeparator(w[i])
    ensures Run(l, w).1 == []
    decreases |w|
  {
    if w != [] {
      NoSeparatorNoDispatch(Step(l, w[0]).0, w[1..]);
    }
  }

  /** Text scanned inside quotes that closes no quote dispatches nothing. */
  lemma {:induction false} QuotedNoDispatch(l: Lexer, w: string)
    requires l.quoted && '"' !in w
    ensures Run(l, w).1 == [] && Run(l, w).0.quoted
    decreases |w|
  {
    if w != [] {
      QuotedNoDispatch(Step(l, w[0]).0, w[1..]);
    }
  }

  /** No flush after the loop: text after the last separator, or still inside quotes at
      end of input, is never dispatched. */
  lemma TrailingNotDispatched(s: string, w: string)
    requires (forall i :: 0 <= i < |w| ==> !IsSeparator(w[i])) || (Run(Start, s).0.quoted && '"' !in w)
    ensures Tokens(s + w) == Tokens(s)
  {
    RunAppend(Start, s, w);
    if forall i :: 0 <= i < |w| ==> !IsSeparator(w[i]) {
      NoSeparatorNoDispatch(Run(Start, s).0, w);
    } else {
      QuotedNoDispatch(Run(Start, s).0, w);
    }
    assert Tokens(s) + [] == Tokens(s);
  }

  /** Key text: no quote, separator or `=`. */
  predicate PlainKey(k: string)
  {
    forall i :: 0 <= i < |k| ==> k[i] != '"' && k[i] != '=' && !IsSeparator(k[i])
  }

  /** Unquoted value text: no quote or separator; `=` is allowed. */
  predicate PlainValue(v: string)
  {
    forall i :: 0 <= i < |v| ==> v[i] != '"' && !IsSeparator(v[i])
  }

  lemma {:induction false} KeyText(l: Lexer, k: string)
    requires !l.haveValue && !l.quoted && PlainKey(k)
    ensures Run(l, k) == (l.(key := l.key + k), [])
    decreases |k|
  {
    if k == [] {
      assert l.key + k == l.key;
    } else {
      var l1 := l.(key := l.key + [k[0]]);
      assert Step(l, k[0]) == (l1, None);
      assert PlainKey(k[1..]);
      KeyText(l1, k[1..]);
      assert Run(l, k) == (Run(l1, k[1..]).0, Dispatched(None) + Run(l1, k[1..]).1);
      assert k == [k[0]] + k[1..];
      assert l.key + k == l1.key + k[1..];
      assert Run(l1, k[1..]).1 == [];
      assert Run(l1, k[1..]).0 == l.(key := l.key + k);
    }
  }

  lemma {:induction false} ValueText(l: Lexer, v: string)
    requires l.haveValue && '"' !in v && (!l.quoted ==> PlainValue(v))
    ensures Run(l, v) == (l.(value := l.value + v), [])
    decreases |v|
  {
    if v == [] {
      assert l.value + v == l.value;
    } else {
      var l1 := l.(value := l.value + [v[0]]);
      assert v[0] != '"' && (!l.quoted ==> !IsSeparator(v[0]));
      assert Step(l, v[0]) == (l1, None);
      assert '"' !in v[1..] && (!l.quoted ==> PlainValue(v[1..]));
      ValueText(l1, v[1..]);
      assert Run(l, v) == (Run(l1, v[1..]).0, Dispatched(None) + Run(l1, v[1..]).1);
      assert v == [v[0]] + v[1..];
      assert l.value + v == l1.value + v[1..];
      assert Run(l1, v[1..]).1 == [];
      assert Run(l1, v[1..]).0 == l.(value := l.value + v);
      assert Dispatched(None) + Run(l1, v[1..]).1 == [];
    }
  }

  /** A pair written plainly: a plain key, and `=` with a plain value if it has one. */
  predicate Plain(t: Token)
  {
    t.key != [] && PlainKey(t.key) && (t.value.Some? ==> PlainValue(t.value.value))
  }

  function Word(t: Token): string
  {
    t.key + (if t.value.Some? then ['='] + t.value.value else [])
  }

  /** A plain pair followed by a separator is dispatched exactly as written, and leaves the
      scanner in its initial state. In particular every `=` after the first stays in the value. */
  lemma PlainWord(t: Token, sep: char)
    requires Plain(t) && IsSeparator(sep)
    ensures Run(Start, Word(t) + [sep]) == (Start, [t])
  {
    KeyText(Start, t.key);
    var lk := Start.(key := t.key);
    assert Start.key + t.key == t.key;
    if t.value.Some? {
      var v := t.value.value;
      var rest := ['='] + (v + [sep]);
      assert Word(t) + [sep] == t.key + rest;
      RunAppend(Start, t.key, rest);
      var lv := lk.(haveValue := true);
      assert Step(lk, '=') == (lv, None);
      assert ['='][1..] == [];
      assert Run(lk, ['=']) == (lv, []);
      RunAppend(lk, ['='], v + [sep]);
      ValueText(lv, v);
      RunSnoc(lv, v, sep);
      var lf := lv.(value := lv.value + v);
      assert lf.value == v;
      assert Step(lf, sep) == (Start, Some(t));
      assert Dispatched(Some(t)) == [t];
      assert [] + [t] == [t];
      assert Run(lv, v + [sep]) == (Start, [t]);
      assert Run(lk, rest) == (Start, [t]);
    } else {
      assert Word(t) + [sep] == t.key + [sep];
      RunSnoc(Start, t.key, sep);
      assert Step(lk, sep) == (Start, Some(t));
      assert Dispatched(Some(t)) == [t];
      assert [] + [t] == [t];
    }
  }

  /** `="` after a key: the value starts, inside quotes. */
  lemma OpenQuote(l: Lexer)
    requires !l.haveValue && !l.quoted
    ensures Run(l, ['=', '"']) == (l.(haveValue := true, quoted := true), [])
  {
    var lh := l.(haveValue := true);
    assert Step(l, '=') == (lh, None);
    assert Step(lh, '"') == (lh.(quoted := true), None);
    assert ['=', '"'][1..] == ['"'];
    RunSingle(lh, '"');
  }

  /** A closing `"` and a separator dispatch the value held. */
  lemma CloseQuote(l: Lexer, sep: char)
    requires l.haveValue && l.quoted && l.key != [] && IsSeparator(sep)
    ensures Run(l, ['"', sep]) == (Start, [Token(l.key, Some(l.value))])
  {
    var lc := l.(quoted := false);
    assert Step(l, '"') == (lc, None);
    assert Step(lc, sep) == (Start, Some(Token(l.key, Some(l.value))));
    assert ['"', sep][1..] == [sep];
    RunSingle(lc, sep);
    assert Run(l, ['"', sep]) == (Run(lc, [sep]).0, Dispatched(None) + Run(lc, [sep]).1);
    assert Dispatched(None) + [Token(l.key, Some(l.value))] == [Token(l.key, Some(l.value))];
  }

  /** A value in double quotes may hold spaces, newlines and `=`: it is dispatched as one
      value, without the quotes. */
  lemma QuotedWord(k: string, v: string, sep: char)
    requires k != [] && PlainKey(k) && '"' !in v && IsSeparator(sep)
    ensures Run(Start, k + "=\"" + v + "\"" + [sep]) == (Start, [Token(k, Some(v))])
  {
    var lk := Start.(key := k);
    var lq := lk.(haveValue := true, quoted := true);
    var tail := ['"', sep];
    KeyText(Start, k);
    assert Start.key + k == k;
    assert k + "=\"" + v + "\"" + [sep] == k + (['=', '"'] + (v + tail));
    RunAppend(Start, k, ['=', '"'] + (v + tail));
    OpenQuote(lk);
    RunAppend(lk, ['=', '"'], v + tail);
    RunAppend(lq, v, tail);
    ValueText(lq, v);
    assert lq.value + v == v;
    CloseQuote(lq.(value := v), sep);
    assert [] + ([] + [Token(k, Some(v))]) == [Token(k, Some(v))];
  }

  /** Plain pairs written as a command line: separated by spaces, ending in a newline. */
  function Render(ts: seq<Token>): string
  {
    if ts == [] then "\n"
    else if |ts| == 1 then Word(ts[0]) + "\n"
    else Word(ts[0]) + " " + Render(ts[1..])
  }

  /** Round trip: scanning the rendering of plain pairs gives back exactly those pairs. */
  lemma {:induction false} RenderRoundTrip(ts: seq<Token>)
    requires forall i :: 0 <= i < |ts| ==> Plain(ts[i])
    ensures Tokens(Render(ts)) == ts
  {
    if ts == [] {
      RunSingle(Start, '\n');
      assert Step(Start, '\n') == (Start, None);
    } else if |ts| == 1 {
      PlainWord(ts[0], '\n');
    } else {
      PlainWord(ts[0], ' ');
      RunAppend(Start, Word(ts[0]) + " ", Render(ts[1..]));
      RenderRoundTrip(ts[1..]);
      assert Render(ts) == (Word(ts[0]) + " ") + Render(ts[1..]);
      assert [ts[0]] + ts[1..] == ts;
    }
  }
}
