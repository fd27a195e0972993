/**
 The text of directives and what is read off it again.
 */
module DirectiveText {
  import opened CStrings
  import opened CText
  import opened Directives

  predicate Blanks(s: string) { forall i :: 0 <= i < |s| ==> IsBlank(s[i]) }

  predicate Starts(s: string, test: char -> bool) { s != "" && test(s[0]) }

  lemma SkipsBlanks(ws: string, s: string)
    requires Blanks(ws) && !Starts(s, IsBlank)
    ensures SkipBlanks(ws + s) == s
  {
    RunExact(ws, s, IsBlank);
  }

  /** What belongs to the word of a directive. */
  lemma LettersOfWords(c: char)
    ensures IsLower(c) <==> 97 <= c as int <= 122
  {
  }

  /** However the blanks are set, the word and what follows it are found. */
  lemma WordIsFound(ws: string, word: string, ws1: string, p: string)
    requires Blanks(ws) && Blanks(ws1) && (forall i :: 0 <= i < |word| ==> IsLower(word[i]))
    requires word != "" && !Starts(p, IsBlank) && (ws1 == "" ==> !Starts(p, IsLower))
    ensures KindOf("#" + (ws + (word + (ws1 + p)))) == KindBy(word, p)
  {
    var rest := ws1 + p;
    var d := word + rest;
    assert ("#" + (ws + d))[1..] == ws + d;
    SkipsBlanks(ws, d);
    RunExact(word, rest, IsLower);
    assert d[..|word|] == word && d[|word|..] == rest;
    SkipsBlanks(ws1, p);
  }

  /** Each directive of section 6.10 of ISO/IEC 9899:1999 is known by its word. */
  lemma WordsMean(p: string)
    ensures KindBy("if", p) == If(p) && KindBy("elif", p) == Elif(p) && KindBy("else", p) == Else && KindBy("endif", p) == EndIf
    ensures KindBy("ifdef", p) == IfDef(Symbol(p)) && KindBy("ifndef", p) == IfNDef(Symbol(p)) && KindBy("undef", p) == Undef(Symbol(p))
    ensures KindBy("define", p) == Define(p) && KindBy("include", p) == Include(p)
    ensures KindBy("pragma", p) == Other && KindBy("error", p) == Other && KindBy("line", p) == Other
  {
  }

  /** A symbol is read whole and nothing behind it. */
  lemma SymbolIsFound(name: string, rest: string)
    requires (forall i :: 0 <= i < |name| ==> IsIdent(name[i])) && !Starts(rest, IsIdent)
    ensures Symbol(name + rest) == name
  {
    RunExact(name, rest, IsIdent);
  }

  predicate NoQuote(s: string) { forall i :: 0 <= i < |s| ==> s[i] != '"' }

  predicate NoOpening(s: string) { forall i :: 0 <= i < |s| ==> s[i] != '"' && s[i] != '<' }

  /** A name in quotes or brackets is found behind anything that has neither. */
  lemma QuotedIsFound(front: string, name: string, rest: string)
    requires NoOpening(front) && NoQuote(name)
    ensures ParseInclude(front + ("\"" + (name + ("\"" + rest)))) == Quoted(name)
  {
    var q := "\"" + (name + ("\"" + rest));
    RunExact(front, q, c => c != '"' && c != '<');
    assert (front + q)[|front|..] == q && q[1..] == name + ("\"" + rest);
    RunExact(name, "\"" + rest, c => c != '"');
    assert (name + ("\"" + rest))[..|name|] == name;
  }

  lemma BracketedIsFound(front: string, name: string, rest: string)
    requires NoOpening(front) && forall i :: 0 <= i < |name| ==> name[i] != '>'
    ensures ParseInclude(front + ("<" + (name + (">" + rest)))) == Bracketed(name)
  {
    var q := "<" + (name + (">" + rest));
    RunExact(front, q, c => c != '"' && c != '<');
    assert (front + q)[|front|..] == q && q[1..] == name + (">" + rest);
    RunExact(name, ">" + rest, c => c != '>');
    assert (name + (">" + rest))[..|name|] == name;
  }

  /** define: the name, one character that is dropped, blanks, and the value, "1" if there is none. */
  function ParseDefine(def: string): (string, string) {
    var n := Run(def, IsIdent);
    var val := if n == |def| then "" else SkipBlanks(def[n + 1..]);
    (def[..n], if val == "" then "1" else val)
  }

  /** Name and value are read back, whatever single character and blanks stand between. */
  lemma DefinitionIsFound(name: string, c: char, ws: string, val: string)
    requires (forall i :: 0 <= i < |name| ==> IsIdent(name[i])) && !IsIdent(c) && Blanks(ws)
    requires val != "" && !IsBlank(val[0])
    ensures ParseDefine(name + ([c] + (ws + val))) == (name, val)
    ensures ParseDefine(name) == (name, "1")
  {
    var def := name + ([c] + (ws + val));
    RunExact(name, [c] + (ws + val), IsIdent);
    assert def[..|name|] == name && def[|name| + 1..] == ws + val;
    SkipsBlanks(ws, val);
    RunExact(name, "", IsIdent);
    assert name + "" == name && name[..|name|] == name;
  }
}
