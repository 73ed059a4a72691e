/**
 Quoting for a POSIX shell (internal/core/deploy/state.go, backup/git.go,
 forge/bootstrap.go) and the two-level command of backup/pushhold.go.

 The reader follows sections 2.2.1 (escape character) and 2.2.2 (single quotes)
 of the POSIX.1-2017 Shell Command Language and splits at blanks and operators.
 Anything whose meaning needs other rules has no reading here.
 */
module Shell {
  import opened Prelude
  import opened Text

  const ESCAPED_QUOTE := "'\\''"

  function Escape(s: string): string {
    ReplaceAll(s, "'", ESCAPED_QUOTE)
  }

  /** stateShQuote, gitShellQuote, quote, shQuote: the same function four times. */
  function Quote(s: string): string {
    "'" + Escape(s) + "'"
  }

  datatype Token = Word(text: string) | Operator(text: string)

  predicate IsBlank(c: char) {
    c == ' ' || c == '\t'
  }

  predicate IsOperator(c: char) {
    c == '|' || c == '&' || c == ';' || c == '<' || c == '>' || c == '(' || c == ')' || c == '\n'
  }

  /** Characters whose unquoted meaning lies outside the two rules read here. */
  predicate IsSpecial(c: char) {
    c == '"' || c == '$' || c == '`' || c == '*' || c == '?' || c == '[' || c == '#' || c == '~'
  }

  predicate EndsWord(s: string) {
    s == "" || IsBlank(s[0]) || IsOperator(s[0])
  }

  /** The rest of one word, inside or outside single quotes, and what follows it. */
  function ReadWord(s: string, quoted: bool): (r: Option<(string, string)>)
    ensures r.Some? ==> |r.value.1| <= |s|
    ensures r.Some? && !quoted && !EndsWord(s) ==> |r.value.1| < |s|
    decreases |s|
  {
    if quoted then
      if s == "" then None
      else if s[0] == '\'' then ReadWord(s[1..], false)
      else Prepend([s[0]], ReadWord(s[1..], true))
    else if EndsWord(s) then Some(("", s))
    else if s[0] == '\'' then ReadWord(s[1..], true)
    else if s[0] == '\\' then
      if |s| == 1 then None
      else if s[1] == '\n' then ReadWord(s[2..], false)
      else Prepend([s[1]], ReadWord(s[2..], false))
    else if IsSpecial(s[0]) then None
    else Prepend([s[0]], ReadWord(s[1..], false))
  }

  function Prepend(text: string, r: Option<(string, string)>): Option<(string, string)> {
    if r.Some? then Some((text + r.value.0, r.value.1)) else None
  }

  function Lex(s: string): Option<seq<Token>>
    decreases |s|
  {
    if s == "" then Some([])
    else if IsBlank(s[0]) then Lex(s[1..])
    else if "&&" <= s || "||" <= s then Cons(Operator(s[..2]), Lex(s[2..]))
    else if IsOperator(s[0]) then Cons(Operator(s[..1]), Lex(s[1..]))
    else
      var word := ReadWord(s, false);
      if word.Some? then Cons(Word(word.value.0), Lex(word.value.1)) else None
  }

  function Cons(t: Token, r: Option<seq<Token>>): Option<seq<Token>> {
    if r.Some? then Some([t] + r.value) else None
  }

  /** Close the quote, read one escaped quote, open it again. */
  lemma EscapedQuoteReads(tail: string)
    ensures ReadWord(ESCAPED_QUOTE + tail, true) == Prepend("'", ReadWord(tail, true))
  {
    var a := ESCAPED_QUOTE + tail;
    var b := a[1..];
    assert b[0] == '\\' && b[1] == '\'' && b[2..] == "'" + tail && ("'" + tail)[1..] == tail;
    assert ReadWord("'" + tail, false) == ReadWord(tail, true);
    assert ReadWord(b, false) == Prepend("'", ReadWord(tail, true));
  }

  lemma EscapeStep(s: string)
    requires s != ""
    ensures Escape(s) == (if s[0] == '\'' then ESCAPED_QUOTE else [s[0]]) + Escape(s[1..])
  {
    assert "'" <= s <==> s[0] == '\'';
  }

  lemma QuotedStep(s: string)
    requires s != "" && s[0] != '\''
    ensures ReadWord(s, true) == Prepend([s[0]], ReadWord(s[1..], true))
  {
  }

  /** Inside single quotes, the escaped text reads as the text, up to the closing quote. */
  lemma {:induction false} EscapedReads(s: string, rest: string)
    ensures ReadWord(Escape(s) + "'" + rest, true) == Prepend(s, ReadWord(rest, false))
    decreases |s|
  {
    if s == "" {
      NothingEscaped(rest);
    } else {
      hide Escape, ReadWord, Prepend, ESCAPED_QUOTE;
      EscapedReads(s[1..], rest);
      EscapeStep(s);
      var tail := Escape(s[1..]) + "'" + rest;
      if s[0] == '\'' {
        assert Escape(s) + "'" + rest == ESCAPED_QUOTE + tail;
        EscapedQuoteReads(tail);
      } else {
        var all := Escape(s) + "'" + rest;
        assert all == [s[0]] + tail && all[0] == s[0] && all[1..] == tail;
        QuotedStep(all);
      }
      assert s == [s[0]] + s[1..];
      PrependTwice([s[0]], s[1..], ReadWord(rest, false));
    }
  }

  lemma NothingEscaped(rest: string)
    ensures ReadWord(Escape("") + "'" + rest, true) == Prepend("", ReadWord(rest, false))
  {
    var all := Escape("") + "'" + rest;
    assert all == "'" + rest && all[1..] == rest;
    PrependTwice("", "", ReadWord(rest, false));
  }

  lemma PrependTwice(a: string, b: string, r: Option<(string, string)>)
    ensures Prepend(a, Prepend(b, r)) == Prepend(a + b, r)
    ensures Prepend("", r) == r
  {
    if r.Some? {
      assert a + (b + r.value.0) == a + b + r.value.0;
      assert "" + r.value.0 == r.value.0;
    }
  }

  /** A quoted text is read back whole, whatever it holds. */
  lemma QuotedReads(s: string, rest: string)
    requires EndsWord(rest)
    ensures ReadWord(Quote(s) + rest, false) == Some((s, rest))
  {
    EscapedReads(s, rest);
    var all := Quote(s) + rest;
    assert all[0] == '\'' && all[1..] == Escape(s) + "'" + rest;
    assert !IsBlank('\'') && !IsOperator('\'');
    assert all != "";
    assert !EndsWord(all);
    assert ReadWord(all, false) == ReadWord(all[1..], true);
    assert ReadWord(rest, false) == Some(("", rest)) && s + "" == s;
  }

  /** One part of a command line as the code writes it. */
  datatype Part = Plain(text: string) | Quoted(text: string) | Sign(text: string)

  /** A plain part holds only characters the shell reads as themselves. */
  predicate WellFormed(p: Part) {
    match p
    case Plain(t) => t != "" && AllOrdinary(t)
    case Quoted(_) => true
    case Sign(t) => t == "|" || t == ">" || t == "&&"
  }

  predicate IsOrdinary(c: char) {
    'a' <= c <= 'z' || 'A' <= c <= 'Z' || '0' <= c <= '9' || c == '-' || c == '_' || c == '/' || c == '.'
  }

  predicate AllOrdinary(t: string) {
    forall i :: 0 <= i < |t| ==> IsOrdinary(t[i])
  }

  function Spell(p: Part): string {
    match p
    case Plain(t) => t
    case Quoted(t) => Quote(t)
    case Sign(t) => t
  }

  function Meaning(p: Part): Token {
    if p.Sign? then Operator(p.text) else Word(p.text)
  }

  function Line(parts: seq<Part>): string {
    if parts == [] then ""
    else if |parts| == 1 then Spell(parts[0])
    else Spell(parts[0]) + " " + Line(parts[1..])
  }

  function Meanings(parts: seq<Part>): seq<Token> {
    seq(|parts|, i requires 0 <= i < |parts| => Meaning(parts[i]))
  }

  lemma {:induction false} PlainReads(t: string, rest: string)
    requires EndsWord(rest) && AllOrdinary(t)
    ensures ReadWord(t + rest, false) == Some((t, rest))
  {
    if t == "" {
      assert t + rest == rest;
    } else {
      PlainReads(t[1..], rest);
      assert (t + rest)[1..] == t[1..] + rest && t == [t[0]] + t[1..];
    }
  }

  lemma PartLexes(p: Part, rest: string)
    requires WellFormed(p) && (rest == "" || rest[0] == ' ')
    ensures Lex(Spell(p) + rest) == Cons(Meaning(p), Lex(rest))
  {
    var all := Spell(p) + rest;
    match p
    case Plain(t) =>
      PlainReads(t, rest);
      assert all[0] == t[0] && IsOrdinary(t[0]);
    case Quoted(t) =>
      QuotedReads(t, rest);
      assert all[0] == '\'';
    case Sign(t) =>
      assert all[..|t|] == t && all[|t|..] == rest;
      assert |t| == 1 && |all| > 1 ==> all[1] == ' ';
  }

  lemma BlankSkipped(s: string)
    ensures Lex(" " + s) == Lex(s)
  {
    assert (" " + s)[1..] == s;
  }

  /** The shell reads a command line as exactly the parts it was built from. */
  lemma {:induction false} LineLexes(parts: seq<Part>)
    requires forall p :: p in parts ==> WellFormed(p)
    ensures Lex(Line(parts)) == Some(Meanings(parts))
  {
    if parts != [] {
      LineLexes(parts[1..]);
      assert Lex("") == Some([]);
      hide Lex, WellFormed, Spell, Meaning, Meanings;
      var rest := if |parts| == 1 then "" else " " + Line(parts[1..]);
      assert Line(parts) == Spell(parts[0]) + rest;
      PartLexes(parts[0], rest);
      BlankSkipped(Line(parts[1..]));
      MeaningsCons(parts);
    } else {
      assert Line(parts) == "" && Meanings(parts) == [];
    }
  }

  lemma MeaningsCons(parts: seq<Part>)
    requires parts != []
    ensures Meanings(parts) == [Meaning(parts[0])] + Meanings(parts[1..])
  {
  }

  /** Quoting gives exactly one word, equal to the original. */
  lemma QuoteIsOneWord(s: string)
    ensures Lex(Quote(s)) == Some([Word(s)])
  {
    LineLexes([Quoted(s)]);
    assert Meanings([Quoted(s)]) == [Word(s)];
  }

  /** A quoted script that quotes its own words is recovered through both readings. */
  lemma NestedQuoting(parts: seq<Part>)
    requires forall p :: p in parts ==> WellFormed(p)
    ensures Lex(Quote(Line(parts))) == Some([Word(Line(parts))])
    ensures Lex(Line(parts)) == Some(Meanings(parts))
  {
    QuoteIsOneWord(Line(parts));
    LineLexes(parts);
  }

  // CaddyPushHold.reload

  /** Writing the hold configuration into the container, base64 on the way. */
  function StagingParts(path: string, encoded: string): seq<Part> {
    [Plain("printf"), Quoted("%s"), Quoted(encoded), Sign("|"), Plain("base64"), Plain("-d"),
     Sign(">"), Quoted(path), Sign("&&")]
  }

  function LoadingParts(path: string): seq<Part> {
    [Plain("caddy"), Plain("reload"), Plain("--config"), Quoted(path), Plain("--adapter"), Plain("caddyfile")]
  }

  function ReloadParts(path: string, encoded: Option<string>): seq<Part> {
    (if encoded.Some? then StagingParts(path, encoded.value) else []) + LoadingParts(path)
  }

  function ReloadScript(path: string, encoded: Option<string>): string {
    Line(ReloadParts(path, encoded))
  }

  function ReloadCommandParts(container: string, script: string): seq<Part> {
    [Plain("docker"), Plain("exec"), Quoted(container), Plain("sh"), Plain("-c"), Quoted(script)]
  }

  lemma CommandIsWellFormed(container: string, script: string)
    ensures forall p :: p in ReloadCommandParts(container, script) ==> WellFormed(p)
  {
    assert WellFormed(Plain("docker")) && WellFormed(Plain("exec")) && WellFormed(Plain("sh"));
    assert WellFormed(Plain("-c"));
    assert WellFormed(Quoted(container)) && WellFormed(Quoted(script));
    hide WellFormed;
  }

  lemma StagingWords()
    ensures WellFormed(Plain("printf")) && WellFormed(Plain("base64")) && WellFormed(Plain("-d"))
  {
  }

  lemma StagingIsWellFormed(path: string, encoded: string)
    ensures forall p :: p in StagingParts(path, encoded) ==> WellFormed(p)
  {
    assert WellFormed(Quoted("%s")) && WellFormed(Quoted(encoded)) && WellFormed(Quoted(path));
    assert WellFormed(Sign("|")) && WellFormed(Sign(">")) && WellFormed(Sign("&&"));
    hide WellFormed;
    StagingWords();
  }

  lemma LoadingVerbs()
    ensures WellFormed(Plain("caddy")) && WellFormed(Plain("reload")) && WellFormed(Plain("--config"))
  {
  }

  lemma LoadingAdapter()
    ensures WellFormed(Plain("--adapter")) && WellFormed(Plain("caddyfile"))
  {
  }

  lemma LoadingIsWellFormed(path: string)
    ensures forall p :: p in LoadingParts(path) ==> WellFormed(p)
  {
    assert WellFormed(Quoted(path));
    hide WellFormed;
    LoadingVerbs();
    LoadingAdapter();
  }

  /** The outer shell hands `sh` the container and one script word; the inner shell decodes the staged
      configuration into the path, if there is one, and then reloads caddy from that path. */
  lemma ReloadSurvivesBothShells(container: string, path: string, encoded: Option<string>)
    ensures var script := ReloadScript(path, encoded);
            && Lex(Line(ReloadCommandParts(container, script))) ==
               Some([Word("docker"), Word("exec"), Word(container), Word("sh"), Word("-c"), Word(script)])
            && Lex(script) == Some(
                 (if encoded.None? then []
                  else [Word("printf"), Word("%s"), Word(encoded.value), Operator("|"), Word("base64"), Word("-d"),
                        Operator(">"), Word(path), Operator("&&")])
                 + [Word("caddy"), Word("reload"), Word("--config"), Word(path), Word("--adapter"), Word("caddyfile")])
  {
    hide Lex, Line, WellFormed, StagingParts, LoadingParts;
    var script := ReloadScript(path, encoded);
    var outer := ReloadCommandParts(container, script);
    CommandIsWellFormed(container, script);
    LineLexes(outer);
    assert Meanings(outer) ==
      [Word("docker"), Word("exec"), Word(container), Word("sh"), Word("-c"), Word(script)];
    LoadingIsWellFormed(path);
    if encoded.Some? {
      StagingIsWellFormed(path, encoded.value);
    }
    LineLexes(ReloadParts(path, encoded));
    ReloadMeans(path, encoded);
  }

  lemma ReloadMeans(path: string, encoded: Option<string>)
    ensures Meanings(ReloadParts(path, encoded)) ==
            (if encoded.None? then []
             else [Word("printf"), Word("%s"), Word(encoded.value), Operator("|"), Word("base64"), Word("-d"),
                   Operator(">"), Word(path), Operator("&&")])
            + [Word("caddy"), Word("reload"), Word("--config"), Word(path), Word("--adapter"), Word("caddyfile")]
  {
  }
}
