/** Deriving a Compose project name from a domain (internal/core/orchestrate/compose_command.go). */
module ProjectName {
  import opened Prelude
  import opened HostState
  const MAX_SLUG := 40

  /** The eight hexadecimal digits of the digest of domain and directory together. */
  type Digest = d: string | |d| == 8 && forall i :: 0 <= i < 8 ==> Usable(d[i]) witness "00000000"

  predicate Usable(c: char) {
    'a' <= c <= 'z' || '0' <= c <= '9'
  }

  function Lower(c: char): char {
    if 'A' <= c <= 'Z' then (c as int + 32) as char else c
  }

  /** One turn of the loop: keep a usable character, let a run of others become one dash. */
  function Extend(out: string, c: char): string {
    if Usable(Lower(c)) then out + [Lower(c)]
    else if out != "" && Last(out) != '-' then out + "-"
    else out
  }

  function Collapsed(out: string, s: string): string
    decreases |s|
  {
    if s == "" then out
    else
      var next := Extend(out, s[0]);
      if |next| >= MAX_SLUG then next else Collapsed(next, s[1..])
  }

  function TrimDashes(s: string): string {
    if s != "" && Last(s) == '-' then TrimDashes(s[..|s| - 1]) else s
  }

  function Slug(s: string): string {
    TrimDashes(Collapsed("", s))
  }

  /** projectSlug. Nothing starts with a dash, so trimming is all at the end. */
  method ProjectSlug(s: string) returns (slug: string)
    ensures slug == Slug(s)
  {
    var out := "";
    var dash := false;
    var i := 0;
    while i < |s|
      invariant 0 <= i <= |s| && |out| < MAX_SLUG
      invariant dash <==> out != "" && Last(out) == '-'
      invariant Collapsed(out, s[i..]) == Collapsed("", s)
    {
      assert s[i..][1..] == s[i + 1..];
      var c := Lower(s[i]);
      if Usable(c) {
        out := out + [c];
        dash := false;
      } else if !dash && |out| > 0 {
        out := out + "-";
        dash := true;
      }
      i := i + 1;
      if |out| >= MAX_SLUG {
        break;
      }
    }
    while out != "" && Last(out) == '-'
      invariant TrimDashes(out) == Slug(s)
      decreases |out|
    {
      out := out[..|out| - 1];
    }
    return out;
  }

  predicate Tidy(s: string) {
    && (forall i :: 0 <= i < |s| ==> Usable(s[i]) || s[i] == '-')
    && (s != "" ==> s[0] != '-')
    && (forall i :: 0 <= i < |s| - 1 ==> s[i] != '-' || s[i + 1] != '-')
  }

  /** The usable characters of a text, in lower case. */
  function Letters(s: string): string {
    if s == "" then "" else Letter(s[0]) + Letters(s[1..])
  }

  function Letter(c: char): string {
    if Usable(Lower(c)) then [Lower(c)] else ""
  }

  lemma {:induction false} LettersConcat(s: string, t: string)
    ensures Letters(s + t) == Letters(s) + Letters(t)
  {
    hide Letter;
    if s == "" {
      assert s + t == t;
    } else {
      LettersConcat(s[1..], t);
      assert (s + t)[1..] == s[1..] + t && (s + t)[0] == s[0];
    }
  }

  lemma LettersOfOne(c: char)
    ensures Letters([c]) == Letter(c)
  {
    assert [c][1..] == "";
  }

  lemma ExtendKeepsLetters(out: string, c: char)
    ensures Letters(Extend(out, c)) == Letters(out) + Letters([c])
  {
    LettersOfOne(c);
    LettersOfOne(Lower(c));
    LettersOfOne('-');
    LettersConcat(out, [Lower(c)]);
    LettersConcat(out, "-");
    assert Lower(Lower(c)) == Lower(c);
  }

  lemma ExtendIsTidy(out: string, c: char)
    requires Tidy(out)
    ensures Tidy(Extend(out, c))
    ensures |out| <= |Extend(out, c)| <= |out| + 1
  {
  }

  lemma {:induction false} CollapsedIsTidy(out: string, s: string)
    requires Tidy(out) && |out| < MAX_SLUG
    ensures Tidy(Collapsed(out, s)) && |Collapsed(out, s)| <= MAX_SLUG
    decreases |s|
  {
    if s != "" {
      ExtendIsTidy(out, s[0]);
      hide Tidy, Extend;
      if |Extend(out, s[0])| < MAX_SLUG {
        CollapsedIsTidy(Extend(out, s[0]), s[1..]);
      }
    }
  }

  /** What the loop does not reach is at the end. */
  lemma {:induction false} CollapsedKeepsLetters(out: string, s: string) returns (rest: string)
    requires Tidy(out) && |out| < MAX_SLUG
    ensures Letters(out) + Letters(s) == Letters(Collapsed(out, s)) + rest
    ensures |out| + |s| < MAX_SLUG ==> rest == ""
    decreases |s|
  {
    if s == "" {
      return "";
    }
    ExtendIsTidy(out, s[0]);
    LettersStep(out, s);
    hide Letters, Tidy, Extend;
    if |Extend(out, s[0])| < MAX_SLUG {
      rest := CollapsedKeepsLetters(Extend(out, s[0]), s[1..]);
    } else {
      rest := Letters(s[1..]);
    }
  }

  lemma LettersStep(out: string, s: string)
    requires s != ""
    ensures Letters(out) + Letters(s) == Letters(Extend(out, s[0])) + Letters(s[1..])
  {
    ExtendKeepsLetters(out, s[0]);
    LettersConcat([s[0]], s[1..]);
    assert s == [s[0]] + s[1..];
    hide Letters, Extend;
  }

  lemma {:induction false} TrimmedDashes(s: string)
    requires Tidy(s)
    ensures Tidy(TrimDashes(s)) && |TrimDashes(s)| <= |s|
    ensures TrimDashes(s) == "" || Last(TrimDashes(s)) != '-'
    ensures Letters(TrimDashes(s)) == Letters(s)
  {
    if s != "" && Last(s) == '-' {
      var t := s[..|s| - 1];
      assert s == t + "-";
      LettersConcat(t, "-");
      LettersOfOne('-');
      TrimmedDashes(t);
    }
  }

  lemma NoLetters(s: string)
    requires Tidy(s)
    ensures Letters(s) == "" <==> s == ""
  {
    if s != "" {
      assert Usable(s[0]);
      assert Lower(s[0]) == s[0];
    }
  }

  /** The letters of a text are its ASCII letters and digits, lowered, in order. */
  lemma LettersAre(c: char, s: string)
    ensures Letters([c] + s) ==
            (if 'A' <= c <= 'Z' then [(c as int + 32) as char]
             else if 'a' <= c <= 'z' || '0' <= c <= '9' then [c] else "") + Letters(s)
  {
    assert ([c] + s)[1..] == s;
  }

  lemma {:induction false} CollapsedMore(out: string, s: string, c: char)
    requires |out| < MAX_SLUG
    ensures var all := Collapsed(out, s);
            Collapsed(out, s + [c]) == if |all| >= MAX_SLUG then all else Extend(all, c)
    decreases |s|
  {
    hide Extend;
    if s == "" {
      assert s + [c] == [c] && [c][1..] == "";
    } else {
      assert (s + [c])[0] == s[0] && (s + [c])[1..] == s[1..] + [c];
      if |Extend(out, s[0])| < MAX_SLUG {
        CollapsedMore(Extend(out, s[0]), s[1..], c);
      }
    }
  }

  lemma {:induction false} CollapsedIsShort(s: string)
    ensures |Collapsed("", s)| <= |s|
    decreases |s|
  {
    if s != "" {
      var rest, c := s[..|s| - 1], Last(s);
      assert s == rest + [c];
      CollapsedIsShort(rest);
      CollapsedMore("", rest, c);
    }
  }

  /** The text so far ends in a dash exactly where something was kept and the last character was not. */
  lemma CollapsedEnds(s: string)
    requires |s| < MAX_SLUG
    ensures var out := Collapsed("", s);
            out != "" ==> s != "" && (Last(out) == '-' <==> !Usable(Lower(Last(s))))
  {
    if s != "" {
      var rest, c := s[..|s| - 1], Last(s);
      assert s == rest + [c];
      CollapsedIsShort(rest);
      CollapsedMore("", rest, c);
    }
  }

  /** A slug read off the domain one character at a time, up to its bound: a letter or digit is added in
      lower case, with one dash before it where others came between it and the last. */
  lemma SlugOneMore(s: string, c: char)
    requires |s| < MAX_SLUG
    ensures var parted := Slug(s) != "" && !Usable(Lower(Last(s)));
            Slug(s + [c]) ==
            if 'a' <= c <= 'z' || '0' <= c <= '9' then Slug(s) + (if parted then "-" else "") + [c]
            else if 'A' <= c <= 'Z' then Slug(s) + (if parted then "-" else "") + [(c as int + 32) as char]
            else Slug(s)
  {
    var out := Collapsed("", s);
    CollapsedIsShort(s);
    CollapsedIsTidy("", s);
    CollapsedMore("", s, c);
    CollapsedEnds(s);
    hide Collapsed, TrimDashes, Extend, Tidy, Lower;
    DashTrims(out);
    LowerIs(c);
    if Usable(Lower(c)) {
      LetterAdded(out, c);
    } else {
      OtherAdded(out, c);
    }
    if out != "" && Last(out) == '-' {
      DashAtEnd(out);
    }
  }

  lemma LowerIs(c: char)
    ensures Usable(Lower(c)) <==> 'a' <= c <= 'z' || '0' <= c <= '9' || 'A' <= c <= 'Z'
    ensures Lower(c) == if 'A' <= c <= 'Z' then (c as int + 32) as char else c
  {
  }

  /** One turn of the loop, seen once the dashes at the end are trimmed. */
  lemma LetterAdded(out: string, c: char)
    requires Usable(Lower(c))
    ensures TrimDashes(Extend(out, c)) == out + [Lower(c)]
  {
    hide TrimDashes, Lower, Usable;
    NoDashTrims(out + [Lower(c)]);
    UsableIsNoDash(Lower(c));
  }

  lemma OtherAdded(out: string, c: char)
    requires Tidy(out) && !Usable(Lower(c))
    ensures TrimDashes(Extend(out, c)) == TrimDashes(out)
  {
    hide TrimDashes, Lower, Usable, Tidy;
    if out != "" && Last(out) != '-' {
      DashTrims(out);
      NoDashTrims(out);
    }
  }

  lemma DashAtEnd(out: string)
    requires out != "" && Last(out) == '-'
    ensures out == out[..|out| - 1] + "-"
  {
  }

  lemma UsableIsNoDash(c: char)
    ensures Usable(c) ==> c != '-'
  {
  }

  lemma NoDashTrims(s: string)
    ensures s == "" || Last(s) != '-' ==> TrimDashes(s) == s
  {
  }

  lemma DashTrims(out: string)
    requires Tidy(out)
    ensures TrimDashes(out) == if out != "" && Last(out) == '-' then out[..|out| - 1] else out
    ensures TrimDashes(out) == "" <==> out == ""
    ensures out == "" || Last(out) != '-' ==> TrimDashes(out + "-") == out
  {
    if out != "" && Last(out) == '-' {
      var t := out[..|out| - 1];
      assert t != "" ==> Last(t) != '-';
    }
    assert (out + "-")[..|out|] == out;
  }

  /** A slug is what a Compose project name may hold, and its characters are the domain's own:
      all of them when the domain is short, and a leading part of them otherwise. */
  lemma SlugIsUsable(s: string)
    ensures Tidy(Slug(s)) && |Slug(s)| <= MAX_SLUG
    ensures Slug(s) == "" || Last(Slug(s)) != '-'
    ensures Letters(Slug(s)) <= Letters(s)
    ensures |s| < MAX_SLUG ==> Letters(Slug(s)) == Letters(s)
  {
    CollapsedIsTidy("", s);
    var rest := CollapsedKeepsLetters("", s);
    assert Letters("") + Letters(s) == Letters(s);
    TrimmedDashes(Collapsed("", s));
  }

  lemma {:induction false} LettersAppear(out: string, s: string)
    requires Tidy(out) && |out| < MAX_SLUG && (Letters(out) != "" || Letters(s) != "")
    ensures Letters(Collapsed(out, s)) != ""
    decreases |s|
  {
    if s != "" {
      var next := Extend(out, s[0]);
      ExtendKeepsLetters(out, s[0]);
      LettersConcat([s[0]], s[1..]);
      assert s == [s[0]] + s[1..];
      ExtendIsTidy(out, s[0]);
      hide Letters, Tidy, Extend;
      if |next| < MAX_SLUG {
        LettersAppear(next, s[1..]);
      } else {
        NoLetters(next);
      }
    }
  }

  /** A domain has no readable half exactly when it holds nothing usable. */
  lemma SlugIsEmptyExactly(s: string)
    ensures Slug(s) == "" <==> Letters(s) == ""
  {
    SlugIsUsable(s);
    if Letters(s) != "" {
      assert Tidy("");
      LettersAppear("", s);
      CollapsedIsTidy("", s);
      TrimmedDashes(Collapsed("", s));
    } else {
      NoLetters(Slug(s));
    }
  }

  /** ProjectNameFor a new deployment. */
  function Derived(domain: string, digest: Digest): string {
    LEGACY + "-" + (if Slug(domain) == "" then "" else Slug(domain) + "-") + digest
  }

  /** A derived name is the prefix, the slug where there is one, and in its last eight characters the
      digest, each set off by a dash. */
  lemma DerivedParts(domain: string, digest: Digest)
    ensures var name := Derived(domain, digest);
            && |name| >= 16 && name[..8] == "farrier-" && name[|name| - 8..] == digest
            && name[8..|name| - 8] == if Slug(domain) == "" then "" else Slug(domain) + "-"
  {
    hide Slug;
    var middle := if Slug(domain) == "" then "" else Slug(domain) + "-";
    assert Derived(domain, digest) == "farrier-" + middle + digest;
  }

  /** So two names are equal exactly when digest and slug are. */
  lemma DerivedIsUnique(x: string, p: Digest, y: string, q: Digest)
    ensures Derived(x, p) == Derived(y, q) <==> p == q && Slug(x) == Slug(y)
  {
    DerivedParts(x, p);
    DerivedParts(y, q);
    hide Slug, Derived;
    if Derived(x, p) == Derived(y, q) && Slug(x) != "" {
      var name := Derived(x, p);
      assert name[8..|name| - 8] == Slug(x) + "-" == Slug(y) + "-";
      assert (Slug(x) + "-")[..|Slug(x)|] == (Slug(y) + "-")[..|Slug(y)|];
    }
    if p == q && Slug(x) == Slug(y) {
      SameDerived(x, y, p);
    }
  }

  lemma SameDerived(x: string, y: string, digest: Digest)
    requires Slug(x) == Slug(y)
    ensures Derived(x, digest) == Derived(y, digest)
  {
    hide Slug;
  }

  /** A derived name is one Compose accepts, and never the legacy name. */
  lemma DerivedIsAccepted(domain: string, digest: Digest)
    ensures Tidy(Derived(domain, digest)) && |Derived(domain, digest)| <= 57
    ensures Derived(domain, digest) != LEGACY
  {
    SlugIsUsable(domain);
    hide Slug;
    var slug := Slug(domain);
    assert Tidy(LEGACY);
    var middle := if slug == "" then "" else slug + "-";
    var name := LEGACY + "-" + middle + digest;
    forall i | 0 <= i < |name| - 1 ensures name[i] != '-' || name[i + 1] != '-' {
      if i >= 8 && i - 8 < |middle| {
        assert name[i] == middle[i - 8];
      }
      if i + 1 >= 8 && i + 1 - 8 < |middle| {
        assert name[i + 1] == middle[i + 1 - 8];
      }
    }
  }
}
