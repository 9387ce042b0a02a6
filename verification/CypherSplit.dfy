/**
Splitting a Cypher script into statements: semicolons separate, `//` comments become a line break, and neither counts
inside quotes.
*/
module CypherSplit {
  import opened Common

  /** White space as Unicode defines it. */
  predicate IsSpace(c: char) {
    || '\t' <= c <= '\r' || c == ' ' || c == '\U{85}' || c == '\U{A0}' || c == '\U{1680}'
       || '\U{2000}' <= c <= '\U{200A}'
    || c == '\U{2028}' || c == '\U{2029}' || c == '\U{202F}' || c == '\U{205F}' || c == '\U{3000}'
  }

  predicate IsQuote(c: char) {
    c == '\'' || c == '"' || c == '`'
  }

  function TrimLeft(s: string): string {
    if s != "" && IsSpace(s[0]) then TrimLeft(s[1..]) else s
  }

  function TrimRight(s: string): string {
    if s != "" && IsSpace(s[|s| - 1]) then TrimRight(s[..|s| - 1]) else s
  }

  function Trim(s: string): string {
    TrimRight(TrimLeft(s))
  }

  function Emit(raw: string): seq<string> {
    if Trim(raw) != "" then [Trim(raw)] else []
  }

  /** What follows the current line. */
  function AfterLine(s: string): string {
    if s == "" then "" else if s[0] == '\n' then s[1..] else AfterLine(s[1..])
  }

  lemma {:induction false} AfterLineIsShorter(s: string)
    requires s != ""
    ensures |AfterLine(s)| < |s|
  {
    if s[0] != '\n' && s[1..] != "" { AfterLineIsShorter(s[1..]); }
  }

  predicate CommentAt(s: string) {
    |s| > 1 && s[0] == '/' && s[1] == '/'
  }

  /** The quote state after one character outside a comment. */
  function NextQuote(quote: Option<char>, c: char): Option<char> {
    if quote.Some? then (if c == quote.value then None else quote)
    else if IsQuote(c) then Some(c)
    else None
  }

  /** The statements of the rest of a script, with `current` collected so far. */
  function Scan(s: string, quote: Option<char>, current: string): seq<string>
    decreases |s|
  {
    if s == "" then Emit(current)
    else if quote.None? && CommentAt(s) then
      AfterLineIsShorter(s);
      Scan(AfterLine(s), None, current + "\n")
    else if quote.None? && s[0] == ';' then Emit(current) + Scan(s[1..], None, "")
    else Scan(s[1..], NextQuote(quote, s[0]), current + [s[0]])
  }

  function Parse(source: string): seq<string> {
    Scan(source, None, "")
  }

  method ParseStatements(source: string) returns (statements: seq<string>)
    ensures statements == Parse(source)
  {
    hide Emit;
    statements := [];
    var current := "";
    var quote: Option<char> := None;
    var i := 0;
    while i < |source|
      invariant i <= |source|
      invariant Parse(source) == statements + Scan(source[i..], quote, current)
      decreases |source| - i
    {
      var c := source[i];
      assert source[i..][0] == c && source[i..][1..] == source[i + 1..];
      if quote.Some? {
        current := current + [c];
        if c == quote.value { quote := None; }
        i := i + 1;
      } else if IsQuote(c) {
        quote, current, i := Some(c), current + [c], i + 1;
      } else if c == '/' && i + 1 < |source| && source[i + 1] == '/' {
        assert CommentAt(source[i..]);
        ghost var start := i;
        while i < |source| && source[i] != '\n'
          invariant start <= i <= |source|
          invariant AfterLine(source[start..]) == AfterLine(source[i..])
          invariant i == start ==> source[i] == '/'
        {
          assert source[i..][1..] == source[i + 1..];
          i := i + 1;
        }
        current := current + "\n";
        if i < |source| {
          assert source[i..][1..] == source[i + 1..];
          i := i + 1;
        }
      } else if c == ';' {
        statements := statements + Emit(current);
        current, i := "", i + 1;
      } else {
        current, i := current + [c], i + 1;
      }
    }
    assert source[i..] == "";
    statements := statements + Emit(current);
  }

  // ---------------------------------------------------------------- what a statement is

  /** Read from this quote state, the text has no separator and no comment outside quotes. */
  predicate Clean(s: string, quote: Option<char>)
    decreases |s|
  {
    s == "" || ((quote.Some? || (s[0] != ';' && !CommentAt(s))) && Clean(s[1..], NextQuote(quote, s[0])))
  }

  function EndQuote(s: string, quote: Option<char>): Option<char>
    decreases |s|
  {
    if s == "" then quote else EndQuote(s[1..], NextQuote(quote, s[0]))
  }

  predicate Trimmed(s: string) {
    s != "" && !IsSpace(s[0]) && !IsSpace(s[|s| - 1])
  }

  predicate Statement(s: string) {
    Trimmed(s) && Clean(s, None)
  }

  /** A list of statements in which only the last may leave a quote open. */
  predicate Script(statements: seq<string>) {
    && (forall i :: 0 <= i < |statements| ==> Statement(statements[i]))
    && (forall i :: 0 <= i < |statements| - 1 ==> EndQuote(statements[i], None) == None)
  }

  function Join(statements: seq<string>): string {
    if statements == [] then ""
    else if |statements| == 1 then statements[0]
    else statements[0] + ";" + Join(statements[1..])
  }

  /** `s` and `rest` do not form a comment where they meet. */
  predicate Apart(s: string, rest: string) {
    s == "" || rest == "" || s[|s| - 1] != '/' || rest[0] != '/'
  }

  /** Scanning past clean text only collects it. */
  lemma {:induction false} ScanClean(s: string, rest: string, quote: Option<char>, current: string)
    requires Clean(s, quote) && Apart(s, rest)
    ensures Scan(s + rest, quote, current) == Scan(rest, EndQuote(s, quote), current + s)
    decreases |s|
  {
    if s == "" {
      assert s + rest == rest && current + s == current;
    } else {
      assert (s + rest)[0] == s[0] && (s + rest)[1..] == s[1..] + rest;
      assert CommentAt(s + rest) ==> CommentAt(s);
      assert current + s == current + [s[0]] + s[1..];
      ScanClean(s[1..], rest, NextQuote(quote, s[0]), current + [s[0]]);
    }
  }

  lemma {:induction false} TrimmedStays(s: string)
    requires Trimmed(s)
    ensures Trim(s) == s && Emit(s) == [s]
  {
  }

  /** Any script is read back from its statements joined by semicolons. */
  lemma {:induction false} JoinIsReadBack(statements: seq<string>)
    requires Script(statements)
    ensures Parse(Join(statements)) == statements
  {
    if statements == [] {
    } else if |statements| == 1 {
      var s := statements[0];
      ScanClean(s, "", None, "");
      assert s + "" == s && "" + s == s;
      TrimmedStays(s);
    } else {
      var s, rest := statements[0], Join(statements[1..]);
      ScanClean(s, ";" + rest, None, "");
      assert s + ";" + rest == s + (";" + rest) && "" + s == s;
      assert (";" + rest)[1..] == rest;
      TrimmedStays(s);
      JoinIsReadBack(statements[1..]);
    }
  }

  // ---------------------------------------------------------------- what parsing yields

  lemma {:induction false} EndQuoteAppends(s: string, c: char, quote: Option<char>)
    ensures EndQuote(s + [c], quote) == NextQuote(EndQuote(s, quote), c)
    decreases |s|
  {
    if s == "" {
      assert (s + [c])[1..] == "";
    } else {
      assert (s + [c])[0] == s[0] && (s + [c])[1..] == s[1..] + [c];
      EndQuoteAppends(s[1..], c, NextQuote(quote, s[0]));
    }
  }

  lemma {:induction false} CleanAppends(s: string, c: char, quote: Option<char>)
    requires Clean(s, quote) && (EndQuote(s, quote).Some? || (c != ';' && Apart(s, [c])))
    ensures Clean(s + [c], quote)
    decreases |s|
  {
    if s == "" {
      assert (s + [c])[1..] == "";
    } else {
      assert (s + [c])[0] == s[0] && (s + [c])[1..] == s[1..] + [c];
      if |s| == 1 && quote.None? && s[0] == '/' { assert EndQuote(s[1..], None) == None; }
      CleanAppends(s[1..], c, NextQuote(quote, s[0]));
    }
  }

  lemma {:induction false} CleanPrefix(s: string, c: char, quote: Option<char>)
    requires Clean(s + [c], quote)
    ensures Clean(s, quote)
    decreases |s|
  {
    if s != "" {
      assert (s + [c])[0] == s[0] && (s + [c])[1..] == s[1..] + [c];
      CleanPrefix(s[1..], c, NextQuote(quote, s[0]));
    }
  }

  /** Trimming keeps clean text clean and its quote state as it was. */
  lemma {:induction false} TrimLeftKeeps(s: string)
    requires Clean(s, None)
    ensures Clean(TrimLeft(s), None) && EndQuote(TrimLeft(s), None) == EndQuote(s, None)
    ensures TrimLeft(s) != "" ==> !IsSpace(TrimLeft(s)[0])
  {
    if s != "" && IsSpace(s[0]) { TrimLeftKeeps(s[1..]); }
  }

  lemma {:induction false} TrimRightKeeps(s: string)
    requires Clean(s, None)
    ensures Clean(TrimRight(s), None) && EndQuote(TrimRight(s), None).None? == EndQuote(s, None).None?
    ensures TrimRight(s) <= s && (TrimRight(s) != "" ==> !IsSpace(TrimRight(s)[|TrimRight(s)| - 1]))
  {
    if s != "" && IsSpace(s[|s| - 1]) {
      var front, last := s[..|s| - 1], s[|s| - 1];
      assert s == front + [last];
      CleanPrefix(front, last, None);
      EndQuoteAppends(front, last, None);
      SpaceIsNoQuote(front, last);
      TrimRightKeeps(front);
    }
  }

  lemma {:induction false} QuoteStateIsAQuote(s: string, quote: Option<char>)
    requires quote.None? || IsQuote(quote.value)
    ensures EndQuote(s, quote).None? || IsQuote(EndQuote(s, quote).value)
    decreases |s|
  {
    if s != "" { QuoteStateIsAQuote(s[1..], NextQuote(quote, s[0])); }
  }

  lemma SpaceIsNoQuote(s: string, c: char)
    requires IsSpace(c)
    ensures NextQuote(EndQuote(s, None), c).None? == EndQuote(s, None).None?
  {
    QuoteStateIsAQuote(s, None);
  }

  lemma EmitYieldsScript(raw: string)
    requires Clean(raw, None)
    ensures Script(Emit(raw))
    ensures EndQuote(raw, None) == None ==> forall s :: s in Emit(raw) ==> EndQuote(s, None) == None
  {
    TrimLeftKeeps(raw);
    TrimRightKeeps(TrimLeft(raw));
  }

  lemma ScriptAppends(a: seq<string>, b: seq<string>)
    requires Script(a) && Script(b) && forall s :: s in a ==> EndQuote(s, None) == None
    ensures Script(a + b)
  {
    hide Statement, EndQuote;
    forall i | 0 <= i < |a + b| - 1 ensures EndQuote((a + b)[i], None) == None {
      if i < |a| { assert a[i] in a; }
    }
  }

  lemma {:induction false} ScanYieldsScript(s: string, quote: Option<char>, current: string)
    requires Clean(current, None) && EndQuote(current, None) == quote && (quote.None? ==> Apart(current, s))
    ensures Script(Scan(s, quote, current))
    decreases |s|
  {
    hide Script, Emit, Clean;
    if s == "" {
      EmitYieldsScript(current);
    } else if quote.None? && CommentAt(s) {
      AfterLineIsShorter(s);
      CleanAppends(current, '\n', None);
      EndQuoteAppends(current, '\n', None);
      ScanYieldsScript(AfterLine(s), None, current + "\n");
    } else if quote.None? && s[0] == ';' {
      EmitYieldsScript(current);
      assert Clean("", None) by { EmptyIsClean(); }
      ScanYieldsScript(s[1..], None, "");
      ScriptAppends(Emit(current), Scan(s[1..], None, ""));
    } else {
      QuoteStateIsAQuote(current, None);
      CleanAppends(current, s[0], None);
      EndQuoteAppends(current, s[0], None);
      ScanYieldsScript(s[1..], NextQuote(quote, s[0]), current + [s[0]]);
    }
  }

  lemma EmptyIsClean()
    ensures Clean("", None)
  {
  }

  /**
  Splitting yields trimmed, non-empty statements free of separators and comments outside quotes, of which only the
  last may leave a quote open; and it is a fixed point: joining them with semicolons and splitting again changes
  nothing.
  */
  lemma SplittingIsAFixedPoint(source: string)
    ensures Script(Parse(source)) && Parse(Join(Parse(source))) == Parse(source)
  {
    hide Script, Join;
    assert Clean("", None) by { EmptyIsClean(); }
    ScanYieldsScript(source, None, "");
    JoinIsReadBack(Parse(source));
  }

  lemma {:induction false} AfterLineSkips(line: string, rest: string)
    requires '\n' !in line
    ensures AfterLine(line + "\n" + rest) == rest
  {
    if line == "" {
      assert ("" + "\n" + rest)[1..] == rest;
    } else {
      assert (line + "\n" + rest)[1..] == line[1..] + "\n" + rest;
      AfterLineSkips(line[1..], rest);
    }
  }

  /** A comment outside quotes reads as a line break. */
  lemma CommentIsALineBreak(before: string, comment: string, rest: string)
    requires Clean(before, None) && EndQuote(before, None) == None && Apart(before, "/") && '\n' !in comment
    ensures Parse(before + ("//" + comment + "\n" + rest)) == Parse(before + ("\n" + rest))
  {
    hide Clean, EndQuote, Emit;
    var tail := "//" + comment + "\n" + rest;
    ScanClean(before, tail, None, "");
    ScanClean(before, "\n" + rest, None, "");
    AfterLineSkips("//" + comment, rest);
    assert ("\n" + rest)[1..] == rest;
    assert "" + before == before;
    assert Scan(tail, None, before) == Scan(rest, None, before + "\n");
  }

  lemma {:induction false} ScanInQuotes(text: string, q: char, current: string)
    requires q !in text
    ensures Scan(text + [q], Some(q), current) == Emit(current + text + [q])
    decreases |text|
  {
    var s := text + [q];
    if text == "" {
      assert s == [q] && s[1..] == "" && current + "" + [q] == current + [q];
    } else {
      assert s[0] == text[0] && s[1..] == text[1..] + [q];
      ScanInQuotes(text[1..], q, current + [text[0]]);
      assert current + [text[0]] + text[1..] + [q] == current + text + [q];
    }
  }

  /** Inside quotes nothing separates and nothing is a comment: whatever stands there is part of one statement. */
  lemma QuotedTextIsOneStatement(q: char, text: string)
    requires (q == '\'' || q == '"' || q == '`') && q !in text
    ensures Parse([q] + text + [q]) == [[q] + text + [q]]
  {
    var s := [q] + text + [q];
    assert s[0] == q && s[1..] == text + [q] && "" + [q] == [q];
    ScanInQuotes(text, q, [q]);
    assert Scan(s, None, "") == Scan(text + [q], Some(q), [q]);
    TrimmedStays(s);
  }

  /** Any other character leaves what follows it outside quotes. */
  lemma OtherCharactersDoNotQuote(c: char)
    requires c != '\'' && c != '"' && c != '`' && c != ';'
    ensures Parse([c, ';', c]) == Parse([c]) + Parse([c])
  {
    var s := [c, ';', c];
    assert s[1..] == [';', c] && s[1..][1..] == [c] && [c][1..] == "" && "" + [c] == [c];
    assert Scan([c], None, "") == Scan("", None, [c]) == Emit([c]);
    assert Scan(s, None, "") == Scan([';', c], None, [c]) == Emit([c]) + Scan([c], None, "");
  }

  /** A character is a statement of its own unless it is white space or the separator. */
  lemma OneCharacter(c: char)
    ensures Parse([c]) ==
            if c in "\t\n\U{0B}\U{0C}\r; \U{85}\U{A0}\U{1680}\U{2028}\U{2029}\U{202F}\U{205F}\U{3000}"
               || 0x2000 <= c as int <= 0x200A
            then [] else [[c]]
  {
    assert [c][1..] == "" && "" + [c] == [c];
    if IsSpace(c) {
      assert TrimLeft([c]) == TrimLeft("") == "" && TrimRight("") == "";
    } else {
      TrimmedStays([c]);
    }
    if c == ';' {
      assert Emit("") == [] && Scan([c], None, "") == Emit("") + Scan("", None, "");
    } else {
      assert Scan([c], None, "") == Scan("", NextQuote(None, c), [c]) == Emit([c]);
    }
  }
}
