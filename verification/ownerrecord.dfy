/** The record of whose forge state a host directory holds (internal/core/deploy/stateowner.go). */
module OwnerRecord {
  import opened Prelude
  import opened Text
  import opened HostState

  const KEY_FIELD := "ssh-host-key"
  const DOMAIN_FIELD := "domain"

  const UNKNOWN := StateOwner("", "")

  /** normalizeSSHPublicKey: type and blob of a public key line, or the line itself when it has
      no two fields. */
  function Normalize(line: string): string {
    var fields := Fields(TrimSpace(line));
    if |fields| < 2 then TrimSpace(line) else fields[0] + " " + fields[1]
  }

  function RecordLine(field: string, value: string): string {
    field + ": " + value + "\n"
  }

  function Record(o: StateOwner): string {
    RecordLine(KEY_FIELD, o.key) + (if o.domain == "" then "" else RecordLine(DOMAIN_FIELD, o.domain))
  }

  /** The record as it stands on disk, where other versions of the program read it. */
  lemma RecordIs(key: string, domain: string)
    ensures Record(StateOwner(key, "")) == "ssh-host-key: " + key + "\n"
    ensures domain != "" ==>
              Record(StateOwner(key, domain)) == "ssh-host-key: " + key + "\n" + "domain: " + domain + "\n"
  {
    assert "ssh-host-key: " == KEY_FIELD + ": " && "domain: " == DOMAIN_FIELD + ": ";
    var first := RecordLine(KEY_FIELD, key);
    assert first + "" == first;
    assert RecordLine(DOMAIN_FIELD, domain) == "domain: " + domain + "\n";
    assert first + ("domain: " + domain + "\n") == first + "domain: " + domain + "\n";
  }

  function ReadLine(o: StateOwner, line: string): StateOwner {
    var parts := Cut(line, ':');
    if parts.None? then o
    else
      var field, value := TrimSpace(parts.value.0), parts.value.1;
      if field == KEY_FIELD then o.(key := Normalize(value))
      else if field == DOMAIN_FIELD then o.(domain := TrimSpace(value))
      else o
  }

  function ReadLines(o: StateOwner, lines: seq<string>): StateOwner
    decreases |lines|
  {
    if lines == [] then o else ReadLines(ReadLine(o, lines[0]), lines[1..])
  }

  function Parsed(record: string): StateOwner {
    ReadLines(UNKNOWN, Split(record, '\n'))
  }

  method Parse(record: string) returns (o: StateOwner)
    ensures o == Parsed(record)
  {
    o := UNKNOWN;
    var lines := Split(record, '\n');
    for i := 0 to |lines|
      invariant ReadLines(o, lines[i..]) == Parsed(record)
    {
      assert lines[i..][1..] == lines[i + 1..];
      var parts := Cut(lines[i], ':');
      if parts.Some? {
        var field := TrimSpace(parts.value.0);
        if field == KEY_FIELD {
          o := o.(key := Normalize(parts.value.1));
        } else if field == DOMAIN_FIELD {
          o := o.(domain := TrimSpace(parts.value.1));
        }
      }
    }
  }

  // Normalisation.

  lemma {:induction false} WordAtEnd(s: string)
    requires s != "" && !IsSpace(Last(s))
    ensures Fields(s) != []
    decreases |s|
  {
    if IsSpace(s[0]) {
      WordAtEnd(s[1..]);
    }
  }

  lemma SingleFieldIsAWord(t: string)
    requires Trimmed(t) && t != "" && |Fields(t)| < 2
    ensures IsWord(t)
  {
    var n := WordLength(t);
    if n < |t| {
      WordAtEnd(t[n..]);
    }
  }

  /** What a normalised key can be: nothing, one word, or two words a blank apart. */
  lemma NormalizedShape(line: string)
    ensures var key := Normalize(line);
            || key == "" || IsWord(key)
            || exists w, x :: IsWord(w) && IsWord(x) && key == w + " " + x
  {
    var t := TrimSpace(line);
    var fields := Fields(t);
    if |fields| >= 2 {
      assert fields[0] in fields && fields[1] in fields;
      assert IsWord(fields[0]) && IsWord(fields[1]);
    } else if t != "" {
      SingleFieldIsAWord(t);
    }
    hide Fields, TrimSpace, IsWord;
  }

  lemma NormalizeIsIdempotent(line: string)
    ensures Normalize(Normalize(line)) == Normalize(line)
    ensures '\n' !in Normalize(line)
  {
    NormalizedShape(line);
    hide Fields, TrimSpace;
    var key := Normalize(line);
    if key == "" || IsWord(key) {
      FieldsOfJoin(if key == "" then [] else [key]);
      TrimOfTrimmed(key);
    } else {
      var w, x :| IsWord(w) && IsWord(x) && key == w + " " + x;
      FieldsOfJoin([w, x]);
      assert Join([w, x], " ") == w + " " + x;
      assert Trimmed(key) by {
        assert key[0] == w[0] && Last(key) == Last(x);
      }
      TrimOfTrimmed(key);
    }
  }

  lemma {:induction false} SpacesHaveNoFields(s: string)
    requires forall i :: 0 <= i < |s| ==> IsSpace(s[i])
    ensures Fields(s) == []
    decreases |s|
  {
    if s != "" {
      SpacesHaveNoFields(s[1..]);
    }
  }

  lemma {:induction false} FieldsOfLeftTrimmed(s: string)
    ensures Fields(TrimLeft(s)) == Fields(s)
  {
    if s != "" && IsSpace(s[0]) {
      FieldsOfLeftTrimmed(s[1..]);
    }
  }

  lemma {:induction false} TrailingSpacesDoNotCount(s: string, spaces: string)
    requires forall i :: 0 <= i < |spaces| ==> IsSpace(spaces[i])
    ensures Fields(s + spaces) == Fields(s)
    decreases |s|
  {
    if s == "" {
      SpacesHaveNoFields(spaces);
      assert s + spaces == spaces;
    } else if IsSpace(s[0]) {
      assert (s + spaces)[1..] == s[1..] + spaces;
      TrailingSpacesDoNotCount(s[1..], spaces);
    } else {
      var n := WordLength(s);
      var word, rest := s[..n], s[n..];
      assert s + spaces == word + (rest + spaces) && s == word + rest;
      TrailingSpacesDoNotCount(rest, spaces);
      if rest + spaces != "" {
        assert IsSpace((rest + spaces)[0]);
      }
      FieldsOfWord(word, rest + spaces);
      FieldsOfWord(word, rest);
    }
  }

  lemma {:induction false} RightTrimIsSpaces(s: string)
    ensures forall i :: |TrimRight(s)| <= i < |s| ==> IsSpace(s[i])
  {
    if s != "" && IsSpace(Last(s)) {
      RightTrimIsSpaces(s[..|s| - 1]);
    }
  }

  lemma FieldsOfTrimmed(s: string)
    ensures Fields(TrimSpace(s)) == Fields(s)
  {
    hide Fields, TrimLeft, TrimRight;
    var left := TrimLeft(s);
    var trimmed := TrimRight(left);
    RightTrimIsSpaces(left);
    assert left == trimmed + left[|trimmed|..];
    TrailingSpacesDoNotCount(trimmed, left[|trimmed|..]);
    FieldsOfLeftTrimmed(s);
  }

  lemma BlankBeforeFields(s: string)
    ensures Fields(" " + s) == Fields(s)
  {
    assert (" " + s)[1..] == s;
  }

  /** The comment of a public key line is a label: it never changes the key compared. */
  lemma CommentDoesNotCount(keyType: string, blob: string, comment: string)
    requires IsWord(keyType) && IsWord(blob) && (comment == "" || IsSpace(comment[0]))
    ensures Normalize(keyType + " " + blob + comment) == keyType + " " + blob
  {
    hide Fields, TrimSpace, IsWord;
    var line := keyType + " " + blob + comment;
    var rest := blob + comment;
    FieldsOfTrimmed(line);
    assert line == keyType + (" " + rest);
    BlankBeforeFields(rest);
    FieldsOfWord(keyType, " " + rest);
    FieldsOfWord(blob, comment);
  }

  // Round trip.

  /** What a record can give back: a normalised key and a trimmed single-line domain. */
  predicate Clean(o: StateOwner) {
    Normalize(o.key) == o.key && Trimmed(o.domain) && '\n' !in o.domain
  }

  lemma ReadLineIsClean(o: StateOwner, line: string)
    requires Clean(o) && '\n' !in line
    ensures Clean(ReadLine(o, line))
  {
    hide Normalize, TrimSpace, Cut;
    if Cut(line, ':').Some? {
      CutIsInfix(line, ':');
      NormalizeIsIdempotent(Cut(line, ':').value.1);
      TrimIsWithin(Cut(line, ':').value.1);
    }
  }

  lemma TrimIsWithin(s: string)
    ensures forall c :: c in TrimSpace(s) ==> c in s
  {
  }

  lemma {:induction false} ReadLinesIsClean(o: StateOwner, lines: seq<string>)
    requires Clean(o) && forall l :: l in lines ==> '\n' !in l
    ensures Clean(ReadLines(o, lines))
    decreases |lines|
  {
    if lines != [] {
      hide Clean, ReadLine;
      ReadLineIsClean(o, lines[0]);
      ReadLinesIsClean(ReadLine(o, lines[0]), lines[1..]);
    }
  }

  lemma {:induction false} ReadLinesConcat(o: StateOwner, a: seq<string>, b: seq<string>)
    ensures ReadLines(o, a + b) == ReadLines(ReadLines(o, a), b)
    decreases |a|
  {
    if a == [] {
      assert a + b == b;
    } else {
      ReadLinesConcat(ReadLine(o, a[0]), a[1..], b);
      assert (a + b)[1..] == a[1..] + b;
    }
  }

  lemma LeadingBlank(s: string)
    ensures TrimSpace(" " + s) == TrimSpace(s)
    ensures Normalize(" " + s) == Normalize(s)
  {
    assert (" " + s)[1..] == s;
  }

  lemma FieldNames()
    ensures ':' !in KEY_FIELD && ':' !in DOMAIN_FIELD && KEY_FIELD != DOMAIN_FIELD
    ensures TrimSpace(KEY_FIELD) == KEY_FIELD && TrimSpace(DOMAIN_FIELD) == DOMAIN_FIELD
  {
    TrimOfTrimmed(KEY_FIELD);
    TrimOfTrimmed(DOMAIN_FIELD);
    assert KEY_FIELD[0] != DOMAIN_FIELD[0];
  }

  lemma ReadsBack(o: StateOwner, field: string, value: string)
    requires field == KEY_FIELD || field == DOMAIN_FIELD
    ensures ReadLine(o, field + ": " + value)
            == if field == KEY_FIELD then o.(key := Normalize(value)) else o.(domain := TrimSpace(value))
  {
    hide Normalize, TrimSpace, Cut, KEY_FIELD, DOMAIN_FIELD;
    FieldNames();
    LeadingBlank(value);
    CutAt(field, ':', " " + value);
    assert field + ": " + value == field + ([':'] + (" " + value));
  }

  lemma RecordSplits(o: StateOwner)
    requires Clean(o)
    ensures Split(Record(o), '\n') ==
            [KEY_FIELD + ": " + o.key] + (if o.domain == "" then [] else [DOMAIN_FIELD + ": " + o.domain]) + [""]
  {
    NormalizeIsIdempotent(o.key);
    var key, domain := KEY_FIELD + ": " + o.key, DOMAIN_FIELD + ": " + o.domain;
    assert '\n' !in key && '\n' !in domain;
    SplitWhole(key, '\n');
    SplitWhole(domain, '\n');
    SplitWhole("", '\n');
    var tail := if o.domain == "" then "" else domain + "\n";
    assert tail == if o.domain == "" then "" else RecordLine(DOMAIN_FIELD, o.domain);
    assert Record(o) == key + ['\n'] + tail;
    SplitAt(key, tail, '\n');
    if o.domain != "" {
      SplitAt(domain, "", '\n');
      assert tail == domain + ['\n'] + "";
    }
  }

  /** A printed record reads back as the same owner exactly when the owner is clean: a domain
      carrying a line break, which a manifest edited by hand can hold, is the owner that does not. */
  lemma RecordReadsBackExactly(o: StateOwner)
    ensures Parsed(Record(o)) == o <==> Clean(o)
  {
    hide Normalize, TrimSpace, Record, ReadLines, Split, Clean;
    if Clean(o) {
      CleanReadsBack(o);
    } else {
      UnknownIsClean();
      ReadLinesIsClean(UNKNOWN, Split(Record(o), '\n'));
    }
  }

  lemma UnknownIsClean()
    ensures Clean(UNKNOWN)
  {
  }

  lemma ReadOneLine(o: StateOwner, line: string)
    ensures ReadLines(o, [line]) == ReadLine(o, line)
    ensures ReadLine(o, "") == o && ReadLines(o, []) == o
  {
    assert [line][1..] == [];
  }

  lemma CleanReadsBack(o: StateOwner)
    requires Clean(o)
    ensures Parsed(Record(o)) == o
  {
    RecordSplits(o);
    var k := [KEY_FIELD + ": " + o.key];
    var d := if o.domain == "" then [] else [DOMAIN_FIELD + ": " + o.domain];
    ReadLinesConcat(UNKNOWN, k + d, [""]);
    ReadLinesConcat(UNKNOWN, k, d);
    ReadsBack(UNKNOWN, KEY_FIELD, o.key);
    ReadsBack(StateOwner(o.key, ""), DOMAIN_FIELD, o.domain);
    TrimOfTrimmed(o.domain);
    ReadOneLine(UNKNOWN, k[0]);
    ReadOneLine(StateOwner(o.key, ""), DOMAIN_FIELD + ": " + o.domain);
    ReadOneLine(o, "");
    hide Normalize, TrimSpace, Record, ReadLine, ReadLines, Split, KEY_FIELD, DOMAIN_FIELD;
    var one := StateOwner(o.key, "");
    assert ReadLines(UNKNOWN, k) == one;
    assert ReadLines(one, d) == o;
    assert ReadLines(o, [""]) == o;
  }

  // What an owner's record reads as, for every domain.

  function KeyOn(line: string): Option<string> {
    var parts := Cut(line, ':');
    if parts.Some? && TrimSpace(parts.value.0) == KEY_FIELD then Some(Normalize(parts.value.1)) else None
  }

  /** The last key a text's lines give, as a record reads them. */
  function LastKey(lines: seq<string>): Option<string> {
    if lines == [] then None
    else if KeyOn(Last(lines)).Some? then KeyOn(Last(lines))
    else LastKey(lines[..|lines| - 1])
  }

  lemma {:induction false} ReadLinesKey(o: StateOwner, lines: seq<string>)
    ensures ReadLines(o, lines).key == if LastKey(lines).Some? then LastKey(lines).value else o.key
    decreases |lines|
  {
    hide Normalize, TrimSpace, Cut, KEY_FIELD, DOMAIN_FIELD;
    if lines != [] {
      var rest, last := lines[..|lines| - 1], Last(lines);
      assert lines == rest + [last];
      ReadLinesConcat(o, rest, [last]);
      ReadLinesKey(o, rest);
      var before := ReadLines(o, rest);
      assert ReadLines(before, [last]) == ReadLine(before, last) by {
        assert [last][1..] == [];
      }
      FieldNames();
    }
  }

  lemma EmptyLineHasNoKey()
    ensures KeyOn("") == None
  {
  }

  /** The lines of a record: its key, its domain from "domain: " on, and the empty last one. */
  lemma RecordLines(o: StateOwner)
    requires '\n' !in o.key && o.domain != ""
    ensures var lines := Split(o.domain, '\n');
            Split(Record(o), '\n') ==
            [KEY_FIELD + ": " + o.key] + ([DOMAIN_FIELD + ": " + lines[0]] + lines[1..]) + [""]
  {
    var key, head := KEY_FIELD + ": " + o.key, DOMAIN_FIELD + ": ";
    assert '\n' !in key && '\n' !in head;
    SplitWhole(key, '\n');
    SplitWhole("", '\n');
    SplitPrefix(head, o.domain);
    hide Split, KEY_FIELD, DOMAIN_FIELD;
    var tail := head + o.domain + "\n";
    assert Record(o) == key + ['\n'] + tail;
    assert tail == (head + o.domain) + ['\n'] + "";
    SplitAt(key, tail, '\n');
    SplitAt(head + o.domain, "", '\n');
  }

  lemma {:induction false} SplitPrefix(head: string, s: string)
    requires '\n' !in head
    ensures Split(head + s, '\n') == [head + Split(s, '\n')[0]] + Split(s, '\n')[1..]
    decreases |head|
  {
    hide Split;
    if head == "" {
      assert head + s == s && head + Split(s, '\n')[0] == Split(s, '\n')[0];
    } else {
      SplitPrefix(head[1..], s);
      SplitCons(head + s, '\n');
      assert (head + s)[1..] == head[1..] + s && (head + s)[0] == head[0];
      assert [head[0]] + (head[1..] + Split(s, '\n')[0]) == head + Split(s, '\n')[0];
    }
  }

  lemma NoDomainReadsBack(o: StateOwner)
    requires Normalize(o.key) == o.key && o.domain == ""
    ensures Parsed(Record(o)).key == o.key && LastKey(Split(o.domain, '\n')[1..]) == None
  {
    SplitWhole("", '\n');
    RecordReadsBackExactly(o);
    assert Clean(o);
    hide Split, Record, Normalize, Parsed;
  }

  lemma DomainLinesDecide(o: StateOwner, first: seq<string>, rest: seq<string>)
    requires ReadLines(UNKNOWN, first).key == o.key
    ensures ReadLines(UNKNOWN, first + rest + [""]).key == if LastKey(rest).Some? then LastKey(rest).value else o.key
  {
    hide KeyOn, ReadLine, ReadLines, Normalize;
    EmptyLineHasNoKey();
    assert LastKey([""]) == None by {
      assert [""][..0] == [];
    }
    ReadLinesConcat(UNKNOWN, first + rest, [""]);
    ReadLinesConcat(UNKNOWN, first, rest);
    ReadLinesKey(ReadLines(UNKNOWN, first), rest);
    ReadLinesKey(ReadLines(UNKNOWN, first + rest), [""]);
  }

  /** The key a record reads as, for every domain there is: its own, unless a later line of the
      domain gives one. */
  lemma RecordedKeyExactly(o: StateOwner)
    requires Normalize(o.key) == o.key
    ensures var later := LastKey(Split(o.domain, '\n')[1..]);
            Parsed(Record(o)).key == if later.Some? then later.value else o.key
  {
    hide Split, Record, Normalize, LastKey, ReadLines, KEY_FIELD, DOMAIN_FIELD;
    if o.domain == "" {
      NoDomainReadsBack(o);
    } else {
      NormalizeIsIdempotent(o.key);
      RecordLines(o);
      var lines := Split(o.domain, '\n');
      FirstLinesKey(o, lines[0]);
      var first := [KEY_FIELD + ": " + o.key, DOMAIN_FIELD + ": " + lines[0]];
      DomainLinesDecide(o, first, lines[1..]);
      assert Split(Record(o), '\n') == first + lines[1..] + [""];
    }
  }

  lemma ReadTwoLines(o: StateOwner, a: string, b: string)
    ensures ReadLines(o, [a, b]) == ReadLine(ReadLine(o, a), b)
  {
    hide ReadLine;
    var rest := [a, b][1..];
    assert rest == [b] && rest[1..] == [];
    assert ReadLines(ReadLine(o, a), rest) == ReadLine(ReadLine(o, a), b);
  }

  lemma FirstLinesKey(o: StateOwner, domain: string)
    requires Normalize(o.key) == o.key
    ensures ReadLines(UNKNOWN, [KEY_FIELD + ": " + o.key, DOMAIN_FIELD + ": " + domain]).key == o.key
  {
    hide Normalize, TrimSpace, KEY_FIELD, DOMAIN_FIELD, ReadLine, ReadLines;
    FieldNames();
    ReadsBack(UNKNOWN, KEY_FIELD, o.key);
    ReadsBack(StateOwner(o.key, ""), DOMAIN_FIELD, domain);
    ReadTwoLines(UNKNOWN, KEY_FIELD + ": " + o.key, DOMAIN_FIELD + ": " + domain);
  }

  /** A hand-edited domain with a second line in the record's own form hands the directory over. */
  lemma SecondLineNamesAnother(key: string, domain: string, other: string)
    requires Normalize(key) == key && '\n' !in domain && '\n' !in other
    ensures Parsed(Record(StateOwner(key, domain + "\n" + KEY_FIELD + ": " + other))).key == Normalize(other)
  {
    var line := KEY_FIELD + ": " + other;
    var whole := domain + "\n" + KEY_FIELD + ": " + other;
    assert '\n' !in line;
    assert whole == domain + ['\n'] + line;
    SplitAt(domain, line, '\n');
    SplitWhole(domain, '\n');
    SplitWhole(line, '\n');
    RecordedKeyExactly(StateOwner(key, whole));
    hide Split, Normalize, Record, Parsed;
    assert Split(whole, '\n')[1..] == [line];
    KeyLine(other);
  }

  lemma KeyLine(value: string)
    ensures LastKey([KEY_FIELD + ": " + value]) == Some(Normalize(value))
  {
    hide Normalize, TrimSpace, Cut, KEY_FIELD;
    FieldNames();
    LeadingBlank(value);
    CutAt(KEY_FIELD, ':', " " + value);
    assert KEY_FIELD + ": " + value == KEY_FIELD + ([':'] + (" " + value));
  }

  predicate Unrecognised(line: string) {
    Cut(line, ':').None? || TrimSpace(Cut(line, ':').value.0) !in {KEY_FIELD, DOMAIN_FIELD}
  }

  /** A field a later version adds, at the start, the end or between any two lines, changes nothing. */
  lemma UnknownLineIsIgnored(before: string, line: string, after: string)
    requires before == "" || Last(before) == '\n'
    requires '\n' !in line && Unrecognised(line)
    ensures Parsed(before + line + "\n" + after) == Parsed(before + after)
  {
    SplitWhole(line, '\n');
    SplitAt(line, after, '\n');
    var rest := line + ['\n'] + after;
    var extended := before + line + "\n" + after;
    assert extended == before + rest;
    if before == "" {
      assert extended == rest && before + after == after;
      ReadLinesConcat(UNKNOWN, [line], Split(after, '\n'));
      assert ReadLines(UNKNOWN, [line]) == UNKNOWN;
    } else {
      var head := before[..|before| - 1];
      var o := ReadLines(UNKNOWN, Split(head, '\n'));
      assert before == head + ['\n'];
      assert extended == head + ['\n'] + rest && before + after == head + ['\n'] + after;
      SplitAt(head, rest, '\n');
      SplitAt(head, after, '\n');
      ReadLinesConcat(UNKNOWN, Split(head, '\n'), [line] + Split(after, '\n'));
      ReadLinesConcat(UNKNOWN, Split(head, '\n'), Split(after, '\n'));
      ReadLinesConcat(o, [line], Split(after, '\n'));
      assert ReadLines(o, [line]) == o;
    }
  }
}
