/**
 Redaction of key material from text the program did not author
 (internal/core/keystore/secret.go, internal/core/forge/bootstrap.go).
 */
module Redaction {
  import opened Text

  const PLACEHOLDER := "[redacted]"
  const INNER := "redacted"

  predicate BracketFree(s: string) {
    '[' !in s && ']' !in s
  }

  function RedactAll(text: string, values: seq<string>): string
    decreases |values|
  {
    if values == [] then text
    else RedactAll(if values[0] == "" then text else ReplaceAll(text, values[0], PLACEHOLDER), values[1..])
  }

  method Redact(text: string, values: seq<string>) returns (clean: string)
    ensures clean == RedactAll(text, values)
  {
    clean := text;
    for i := 0 to |values|
      invariant RedactAll(clean, values[i..]) == RedactAll(text, values)
    {
      if values[i] != "" {
        clean := ReplaceAll(clean, values[i], PLACEHOLDER);
      }
    }
  }

  /** Bracket-free text at the head of the output was at the head of the input. */
  lemma {:induction false} HeadWasThere(s: string, v: string, u: string)
    requires v != "" && BracketFree(u) && u <= ReplaceAll(s, v, PLACEHOLDER)
    ensures u <= s && OccursAt(s, u, 0)
    decreases |s|
  {
    if u != "" {
      assert u[0] != '[' && ReplaceAll(s, v, PLACEHOLDER)[0] == u[0];
      HeadWasThere(s[1..], v, u[1..]);
      assert u == [u[0]] + u[1..] && s == [s[0]] + s[1..];
    }
  }

  lemma InsideWord(w: string, i: nat)
    requires 0 < i && i + |w| <= 9 && w == PLACEHOLDER[i..i + |w|]
    ensures Contains(INNER, w)
  {
    assert PLACEHOLDER[1..9] == INNER;
    assert OccursAt(INNER, w, i - 1);
  }

  /** A bracket-free text not inside the placeholder's word cannot touch the placeholder. */
  lemma PastPlaceholder(rest: string, w: string, i: int)
    requires w != "" && BracketFree(w) && !Contains(INNER, w)
    requires OccursAt(PLACEHOLDER + rest, w, i)
    ensures OccursAt(rest, w, i - |PLACEHOLDER|)
  {
    var all := PLACEHOLDER + rest;
    assert forall j :: 0 <= j < |w| ==> w[j] == all[i + j];
    assert all[0] == '[' && all[9] == ']' && all[|PLACEHOLDER|..] == rest;
    if 0 < i && i + |w| <= 9 {
      assert w == PLACEHOLDER[i..i + |w|];
      InsideWord(w, i);
      assert false;
    }
  }

  /** Replacing `v` neither creates an occurrence of `w` nor leaves one of `v` itself. */
  lemma {:induction false} NothingNew(s: string, v: string, w: string)
    requires v != "" && w != "" && BracketFree(w) && !Contains(INNER, w)
    requires w == v || !Contains(s, w)
    ensures !Contains(ReplaceAll(s, v, PLACEHOLDER), w)
    decreases |s|
  {
    var out := ReplaceAll(s, v, PLACEHOLDER);
    if i :| OccursAt(out, w, i) {
      if v <= s {
        var tail := s[|v|..];
        PastPlaceholder(ReplaceAll(tail, v, PLACEHOLDER), w, i);
        ShiftedOccurrence(s, w, |v|);
        NothingNew(tail, v, w);
        assert false;
      } else if i == 0 {
        HeadWasThere(s, v, w);
        assert false;
      } else {
        var tail := ReplaceAll(s[1..], v, PLACEHOLDER);
        assert out == [s[0]] + tail;
        assert tail[i - 1..i - 1 + |w|] == out[i..i + |w|];
        assert OccursAt(tail, w, i - 1);
        ShiftedOccurrence(s, w, 1);
        NothingNew(s[1..], v, w);
        assert false;
      }
    }
  }

  lemma ShiftedOccurrence(s: string, w: string, k: nat)
    requires k <= |s|
    ensures Contains(s[k..], w) ==> Contains(s, w)
  {
    if i :| OccursAt(s[k..], w, i) {
      assert OccursAt(s, w, i + k);
    }
  }

  lemma {:induction false} StaysAbsent(text: string, values: seq<string>, w: string)
    requires w != "" && BracketFree(w) && !Contains(INNER, w)
    requires !Contains(text, w) || w in values
    ensures !Contains(RedactAll(text, values), w)
    decreases |values|
  {
    if values != [] {
      var next := if values[0] == "" then text else ReplaceAll(text, values[0], PLACEHOLDER);
      if values[0] != "" && (values[0] == w || !Contains(text, w)) {
        NothingNew(text, values[0], w);
      }
      StaysAbsent(next, values[1..], w);
    }
  }

  lemma {:induction false} AbsentUnchanged(s: string, v: string)
    requires v != "" && !Contains(s, v)
    ensures ReplaceAll(s, v, PLACEHOLDER) == s
    decreases |s|
  {
    if s != "" {
      assert v <= s ==> OccursAt(s, v, 0);
      ShiftedOccurrence(s, v, 1);
      AbsentUnchanged(s[1..], v);
      assert s == [s[0]] + s[1..];
    }
  }

  lemma {:induction false} PresentReplaced(s: string, v: string, i: int)
    requires v != "" && OccursAt(s, v, i)
    ensures Contains(ReplaceAll(s, v, PLACEHOLDER), PLACEHOLDER)
    decreases |s|
  {
    var out := ReplaceAll(s, v, PLACEHOLDER);
    if v <= s {
      assert OccursAt(out, PLACEHOLDER, 0);
    } else {
      assert i > 0 && OccursAt(s[1..], v, i - 1);
      PresentReplaced(s[1..], v, i - 1);
      assert out[1..] == ReplaceAll(s[1..], v, PLACEHOLDER);
      ShiftedOccurrence(out, PLACEHOLDER, 1);
    }
  }

  /** Once a placeholder is in the text, or must get there, it stays to the end. */
  lemma {:induction false} PlaceholderStays(text: string, values: seq<string>, w: string)
    requires w != ""
    requires Contains(text, PLACEHOLDER) || (text == w && w in values)
    ensures Contains(RedactAll(text, values), PLACEHOLDER)
    decreases |values|
  {
    if values != [] {
      var v := values[0];
      if v == "" {
        PlaceholderStays(text, values[1..], w);
      } else {
        if i :| OccursAt(text, v, i) {
          PresentReplaced(text, v, i);
        } else {
          AbsentUnchanged(text, v);
          assert OccursAt(w, w, 0);
        }
        PlaceholderStays(ReplaceAll(text, v, PLACEHOLDER), values[1..], w);
      }
    }
  }

  /** After redacting any list in sequence no listed secret is left, including none
      made by a replacement: the secrets must not be made of placeholder text. */
  lemma RedactionHides(text: string, values: seq<string>, w: string)
    requires w in values && w != "" && BracketFree(w) && !Contains(INNER, w)
    ensures !Contains(RedactAll(text, values), w)
  {
    StaysAbsent(text, values, w);
  }

  ghost predicate HidesOnEveryText(values: seq<string>) {
    forall text, w :: w in values && w != "" ==> !Contains(RedactAll(text, values), w)
  }

  /** For secrets without brackets that is exact: a list leaks on some text if and
      only if one of its secrets is a piece of the word "redacted". */
  lemma HidesExactly(values: seq<string>)
    requires forall w :: w in values ==> BracketFree(w)
    ensures HidesOnEveryText(values) <==> forall w :: w in values && w != "" ==> !Contains(INNER, w)
  {
    if forall w :: w in values && w != "" ==> !Contains(INNER, w) {
      forall text, w | w in values && w != ""
        ensures !Contains(RedactAll(text, values), w)
      {
        RedactionHides(text, values, w);
      }
    } else {
      var w :| w in values && w != "" && Contains(INNER, w);
      PlaceholderStays(w, values, w);
      var out := RedactAll(w, values);
      var i :| OccursAt(out, PLACEHOLDER, i);
      var j :| OccursAt(INNER, w, j);
      assert PLACEHOLDER[1..9] == INNER && out[i..i + 10] == PLACEHOLDER;
      assert forall k :: 0 <= k < 8 ==> INNER[k] == PLACEHOLDER[1..9][k] == PLACEHOLDER[k + 1] == out[i + 1 + k];
      assert out[i + 1 + j..i + 1 + j + |w|] == INNER[j..j + |w|];
      assert OccursAt(out, w, i + 1 + j);
    }
  }

  // One secret, whatever it is made of.

  ghost predicate FirstAt(s: string, v: string, k: nat) {
    OccursAt(s, v, k) && forall j :: 0 <= j < k ==> !OccursAt(s, v, j)
  }

  /** One of the two begins with the other. */
  predicate Meets(b: string) {
    b <= PLACEHOLDER || PLACEHOLDER <= b
  }

  /** A secret that can be made of the placeholder: it is within it, it begins with an end of it, or it
      goes on into it from a beginning of its own that does not already complete an earlier match. */
  ghost predicate Overlaps(v: string) {
    || Contains(PLACEHOLDER, v)
    || (exists i :: 0 <= i < |PLACEHOLDER| && PLACEHOLDER[i..] <= v)
    || (exists k :: 0 < k < |v| && Meets(v[k..]) && FirstAt(v[..k] + v, v, k))
  }

  lemma ReplaceStep(s: string, v: string)
    requires v != "" && s != ""
    ensures ReplaceAll(s, v, PLACEHOLDER) ==
            if v <= s then PLACEHOLDER + ReplaceAll(s[|v|..], v, PLACEHOLDER)
            else [s[0]] + ReplaceAll(s[1..], v, PLACEHOLDER)
  {
  }

  lemma LaterFirst(s: string, v: string, k: nat)
    requires v != "" && k > 0 && FirstAt(s, v, k)
    ensures s != "" && !(v <= s) && FirstAt(s[1..], v, k - 1)
  {
    assert !OccursAt(s, v, 0);
    var t := s[1..];
    assert t[k - 1..k - 1 + |v|] == s[k..k + |v|];
    forall j | 0 <= j < k - 1 ensures !OccursAt(t, v, j) {
      assert !OccursAt(s, v, j + 1);
      assert j + |v| <= |t| ==> t[j..j + |v|] == s[j + 1..j + 1 + |v|];
    }
  }

  lemma {:induction false} ReplaceFirst(s: string, v: string, k: nat)
    requires v != "" && FirstAt(s, v, k)
    ensures k + |v| <= |s|
    ensures ReplaceAll(s, v, PLACEHOLDER) == s[..k] + (PLACEHOLDER + ReplaceAll(s[k + |v|..], v, PLACEHOLDER))
    decreases k
  {
    hide ReplaceAll, PLACEHOLDER;
    FirstIs(s, v, k);
    ReplaceStep(s, v);
    if k == 0 {
      assert s[..0] == "";
    } else {
      LaterFirst(s, v, k);
      hide FirstAt;
      var t := s[1..];
      ReplaceFirst(t, v, k - 1);
      HeadBack(s, k, PLACEHOLDER + ReplaceAll(t[k - 1 + |v|..], v, PLACEHOLDER));
      assert t[k - 1 + |v|..] == s[k + |v|..];
    }
  }

  lemma FirstIs(s: string, v: string, k: nat)
    requires v != "" && FirstAt(s, v, k)
    ensures k + |v| <= |s| && s != "" && (k == 0 <==> v <= s)
  {
    assert v <= s ==> OccursAt(s, v, 0);
    assert OccursAt(s, v, 0) ==> v <= s;
  }

  lemma HeadBack(s: string, k: nat, tail: string)
    requires 0 < k <= |s|
    ensures [s[0]] + (s[1..][..k - 1] + tail) == s[..k] + tail
  {
    assert s[..k] == [s[0]] + s[1..][..k - 1];
  }

  lemma {:induction false} FirstExists(s: string, v: string, i: nat) returns (k: nat)
    requires OccursAt(s, v, i)
    ensures FirstAt(s, v, k)
    decreases i
  {
    if j :| 0 <= j < i && OccursAt(s, v, j) {
      k := FirstExists(s, v, j);
    } else {
      k := i;
    }
  }

  /** An occurrence that begins in text the replacement left, before a match. */
  lemma SplitsAt(v: string, u: string, rest: string)
    requires v <= u + (PLACEHOLDER + rest) && |u| < |v|
    ensures v[..|u|] == u && Meets(v[|u|..])
  {
    hide PLACEHOLDER;
    var tail := PLACEHOLDER + rest;
    var b := v[|u|..];
    assert v == (u + tail)[..|v|];
    assert b == tail[..|b|] && v[..|u|] == u;
    if |b| <= |PLACEHOLDER| {
      assert b == PLACEHOLDER[..|b|];
    } else {
      assert PLACEHOLDER == b[..|PLACEHOLDER|];
    }
  }

  lemma WithinFirst(v: string, u: string, rest: string)
    ensures v <= u + rest && |v| <= |u| ==> v <= u
  {
    if v <= u + rest && |v| <= |u| {
      assert v == (u + rest)[..|v|] == u[..|v|];
    }
  }

  lemma OccursInPrefix(s: string, n: nat, v: string, j: nat)
    requires n <= |s|
    ensures OccursAt(s[..n], v, j) <==> OccursAt(s, v, j) && j + |v| <= n
  {
    if j + |v| <= n {
      assert s[..n][j..j + |v|] == s[j..j + |v|];
    }
  }

  lemma FirstStays(s: string, v: string, k: nat)
    requires v != "" && FirstAt(s, v, k)
    ensures FirstAt(s[..k] + v, v, k)
  {
    var n := k + |v|;
    assert s[..n] == s[..k] + v;
    forall j | 0 <= j <= k ensures OccursAt(s[..n], v, j) <==> OccursAt(s, v, j) {
      OccursInPrefix(s, n, v, j);
    }
  }

  /** An occurrence that begins in text the replacement left, before a match. */
  lemma RunsIntoPlaceholder(s: string, v: string, k: nat)
    requires v != "" && !(v <= s) && FirstAt(s, v, k) && v <= ReplaceAll(s, v, PLACEHOLDER)
    ensures Overlaps(v)
  {
    hide ReplaceAll, Meets, PLACEHOLDER, FirstAt, Contains, Overlaps;
    FirstIs(s, v, k);
    ReplaceFirst(s, v, k);
    FirstStays(s, v, k);
    var u, rest := s[..k], ReplaceAll(s[k + |v|..], v, PLACEHOLDER);
    WithinFirst(v, u, PLACEHOLDER + rest);
    PrefixOfPrefix(v, s, k);
    SplitsAt(v, u, rest);
    GoesInto(v, k);
  }

  lemma PrefixOfPrefix(v: string, s: string, k: nat)
    requires k <= |s|
    ensures v <= s[..k] ==> v <= s
  {
  }

  lemma GoesInto(v: string, k: nat)
    requires 0 < k < |v| && Meets(v[k..]) && FirstAt(v[..k] + v, v, k)
    ensures Overlaps(v)
  {
    hide Meets, FirstAt;
  }

  lemma BeginsInPlaceholder(v: string, rest: string, i: nat)
    requires OccursAt(PLACEHOLDER + rest, v, i) && i < |PLACEHOLDER|
    ensures Overlaps(v)
  {
    var out := PLACEHOLDER + rest;
    if i + |v| <= |PLACEHOLDER| {
      assert out[i..i + |v|] == PLACEHOLDER[i..i + |v|];
      assert OccursAt(PLACEHOLDER, v, i);
    } else {
      assert PLACEHOLDER[i..] == out[i..|PLACEHOLDER|] == v[..|PLACEHOLDER| - i];
    }
  }

  lemma OccursLater(head: string, rest: string, v: string, i: nat)
    requires OccursAt(head + rest, v, i) && i >= |head|
    ensures OccursAt(rest, v, i - |head|)
  {
    assert rest[i - |head|..i - |head| + |v|] == (head + rest)[i..i + |v|];
  }

  lemma {:induction false} LeakMeansOverlap(s: string, v: string, i: nat)
    requires v != "" && OccursAt(ReplaceAll(s, v, PLACEHOLDER), v, i)
    ensures Overlaps(v)
    decreases |s|
  {
    ShortTextUnchanged("", v);
    hide ReplaceAll, PLACEHOLDER, Overlaps, Contains;
    assert s != "";
    hide OccursAt;
    ReplaceStep(s, v);
    if v <= s {
      var rest := ReplaceAll(s[|v|..], v, PLACEHOLDER);
      if i >= |PLACEHOLDER| {
        OccursLater(PLACEHOLDER, rest, v, i);
        LeakMeansOverlap(s[|v|..], v, i - |PLACEHOLDER|);
      } else {
        BeginsInPlaceholder(v, rest, i);
      }
    } else if i > 0 {
      OccursLater([s[0]], ReplaceAll(s[1..], v, PLACEHOLDER), v, i);
      LeakMeansOverlap(s[1..], v, i - 1);
    } else {
      LeakAtHead(s, v);
    }
  }

  lemma LeakAtHead(s: string, v: string)
    requires v != "" && !(v <= s) && OccursAt(ReplaceAll(s, v, PLACEHOLDER), v, 0)
    ensures Overlaps(v)
  {
    hide ReplaceAll, PLACEHOLDER, Overlaps;
    if Contains(s, v) {
      var j :| OccursAt(s, v, j);
      var k := FirstExists(s, v, j);
      RunsIntoPlaceholder(s, v, k);
    } else {
      AbsentUnchanged(s, v);
    }
  }

  lemma ShortTextUnchanged(s: string, v: string)
    requires v != "" && |s| < |v|
    ensures ReplaceAll(s, v, PLACEHOLDER) == s
  {
    AbsentUnchanged(s, v);
  }

  /** A text a secret that overlaps the placeholder leaks on. */
  lemma OverlapMeansLeak(v: string) returns (text: string)
    requires v != "" && Overlaps(v)
    ensures Contains(ReplaceAll(text, v, PLACEHOLDER), v)
  {
    if Contains(PLACEHOLDER, v) {
      text := v;
      ReplaceStep(v, v);
      assert v[|v|..] == "" && PLACEHOLDER + "" == PLACEHOLDER;
      ShortTextUnchanged("", v);
    } else if i :| 0 <= i < |PLACEHOLDER| && PLACEHOLDER[i..] <= v {
      text := OverlapBehind(v, i);
    } else {
      var k :| 0 < k < |v| && Meets(v[k..]) && FirstAt(v[..k] + v, v, k);
      text := OverlapAhead(v, k);
    }
  }

  lemma OverlapBehind(v: string, i: nat) returns (text: string)
    requires v != "" && i < |PLACEHOLDER| && PLACEHOLDER[i..] <= v
    ensures Contains(ReplaceAll(text, v, PLACEHOLDER), v)
  {
    hide ReplaceAll, PLACEHOLDER;
    var rest := v[|PLACEHOLDER| - i..];
    text := v + rest;
    ReplaceStep(text, v);
    ShortTextUnchanged(rest, v);
    assert text[|v|..] == rest && v <= text;
    var out := PLACEHOLDER + rest;
    assert v == PLACEHOLDER[i..] + rest && out[i..] == v;
    assert out[i..i + |v|] == v;
    assert OccursAt(out, v, i);
  }

  lemma FirstInMore(v: string, k: nat, rest: string)
    requires v != "" && k < |v| && FirstAt(v[..k] + v, v, k)
    ensures FirstAt(v[..k] + v + rest, v, k)
  {
    var text, n := v[..k] + v + rest, k + |v|;
    assert text[..n] == v[..k] + v;
    forall j | 0 <= j <= k ensures OccursAt(text[..n], v, j) <==> OccursAt(text, v, j) {
      OccursInPrefix(text, n, v, j);
    }
  }

  lemma OverlapAhead(v: string, k: nat) returns (text: string)
    requires 0 < k < |v| && Meets(v[k..]) && FirstAt(v[..k] + v, v, k)
    ensures Contains(ReplaceAll(text, v, PLACEHOLDER), v)
  {
    var rest := MeetsOn(v[k..]);
    hide ReplaceAll, PLACEHOLDER, FirstAt, Meets;
    text := v[..k] + v + rest;
    assert text[..k] == v[..k] && text[k + |v|..] == rest;
    FirstInMore(v, k, rest);
    ReplaceFirst(text, v, k);
    ShortTextUnchanged(rest, v);
    GoesOn(v, k, PLACEHOLDER + rest);
  }

  lemma MeetsOn(b: string) returns (rest: string)
    requires Meets(b)
    ensures b <= PLACEHOLDER + rest && (|b| > 0 ==> |rest| < |b|)
  {
    rest := if b <= PLACEHOLDER then "" else b[|PLACEHOLDER|..];
  }

  lemma GoesOn(v: string, k: nat, tail: string)
    requires k <= |v| && v[k..] <= tail
    ensures OccursAt(v[..k] + tail, v, 0)
  {
    assert v == v[..k] + v[k..];
    assert (v[..k] + tail)[0..|v|] == v[..k] + tail[..|v| - k];
  }

  /** Any one secret, brackets and all, is hidden on every text if and only if it does not overlap the
      placeholder. */
  lemma SingleHidesExactly(v: string)
    requires v != ""
    ensures HidesOnEveryText([v]) <==> !Overlaps(v)
  {
    forall text ensures RedactAll(text, [v]) == ReplaceAll(text, v, PLACEHOLDER) {
      OneSecret(text, v);
    }
    hide RedactAll, ReplaceAll, Overlaps, Contains;
    if Overlaps(v) {
      var text := OverlapMeansLeak(v);
      assert v in [v] && Contains(RedactAll(text, [v]), v);
    } else {
      forall text, w | w in [v] && w != "" ensures !Contains(RedactAll(text, [v]), w) {
        NoOverlapHides(text, v);
      }
    }
  }

  lemma NoOverlapHides(text: string, v: string)
    requires v != "" && !Overlaps(v)
    ensures !Contains(ReplaceAll(text, v, PLACEHOLDER), v)
  {
    hide ReplaceAll, Overlaps;
    if i :| OccursAt(ReplaceAll(text, v, PLACEHOLDER), v, i) {
      LeakMeansOverlap(text, v, i);
    }
  }

  /** A bracketed secret can leak although no piece of it is the placeholder's word. */
  lemma BracketedSecretLeaks()
    ensures Contains(RedactAll("xx[", ["x["]), "x[")
  {
    var v := "x[";
    assert "xx["[1] == 'x' != v[1];
    assert "xx["[1..] == v && v[|v|..] == "";
    assert ReplaceAll(v, v, PLACEHOLDER) == PLACEHOLDER + "";
    assert ReplaceAll("xx[", v, PLACEHOLDER) == "x" + PLACEHOLDER;
    assert RedactAll("x" + PLACEHOLDER, []) == "x" + PLACEHOLDER;
    assert OccursAt("x" + PLACEHOLDER, v, 0);
  }

  /** A secret is replaced where it first stands and after that: what is before it stays, and what comes
      behind it is redacted in turn. */
  lemma SecretIsReplaced(before: string, v: string, after: string)
    requires v != "" && forall j :: 0 <= j < |before| ==> !OccursAt(before + v + after, v, j)
    ensures RedactAll(before + v + after, [v]) == before + "[redacted]" + RedactAll(after, [v])
  {
    var text, k := before + v + after, |before|;
    assert text[k..k + |v|] == v && text[..k] == before && text[k + |v|..] == after;
    ReplaceFirst(text, v, k);
    OneSecret(text, v);
    OneSecret(after, v);
    hide RedactAll, ReplaceAll;
  }

  lemma OneSecret(text: string, v: string)
    requires v != ""
    ensures RedactAll(text, [v]) == ReplaceAll(text, v, PLACEHOLDER)
  {
    assert [v][1..] == [];
    assert RedactAll(ReplaceAll(text, v, PLACEHOLDER), []) == ReplaceAll(text, v, PLACEHOLDER);
  }

  /** Text that holds none of the secrets is passed through unchanged. */
  lemma {:induction false} CleanTextUntouched(text: string, values: seq<string>)
    requires forall w :: w in values && w != "" ==> !Contains(text, w)
    ensures RedactAll(text, values) == text
    decreases |values|
  {
    if values != [] {
      if values[0] != "" {
        AbsentUnchanged(text, values[0]);
      }
      CleanTextUntouched(text, values[1..]);
    }
  }
}
