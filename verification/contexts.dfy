/** The GitHub status context: "ci/cloudbuild", optionally followed by "/"
    and the request's suffix reduced to its ASCII letters and digits. */
module Contexts {
  const BaseContext: string := "ci/cloudbuild"

  /** Kept by the rune filter: at most U+007F, and a letter or a digit. */
  predicate IsAsciiAlnum(c: char)
  {
    'a' <= c <= 'z' || 'A' <= c <= 'Z' || '0' <= c <= '9'
  }

  predicate AllAsciiAlnum(s: string)
  {
    forall i :: 0 <= i < |s| ==> IsAsciiAlnum(s[i])
  }

  /** strings.Map with the filter: every other rune is dropped. */
  function Keep(s: string): (r: string)
    ensures |r| <= |s|
    ensures AllAsciiAlnum(r)
  {
    if s == [] then []
    else (if IsAsciiAlnum(s[0]) then [s[0]] else []) + Keep(s[1..])
  }

  /** `r` is `s` with some characters left out, the rest in order. */
  predicate IsSubsequence(r: string, s: string)
    decreases |s|
  {
    if r == [] then true
    else if s == [] then false
    else if r[0] == s[0] then IsSubsequence(r[1..], s[1..])
    else IsSubsequence(r, s[1..])
  }

  lemma {:induction false} KeepIsSubsequence(s: string)
    ensures IsSubsequence(Keep(s), s)
  {
    if s != [] {
      KeepIsSubsequence(s[1..]);
      var r := Keep(s[1..]);
      if !IsAsciiAlnum(s[0]) {
        assert Keep(s) == r;
        if r != [] {
          assert IsAsciiAlnum(r[0]);
        }
      }
    }
  }

  lemma {:induction false} KeepAppend(a: string, b: string)
    ensures Keep(a + b) == Keep(a) + Keep(b)
  {
    if a != [] {
      assert (a + b)[1..] == a[1..] + b;
      KeepAppend(a[1..], b);
    } else {
      assert a + b == b;
    }
  }

  /** Keep leaves a string alone exactly when it has nothing to drop. */
  lemma {:induction false} KeepFixed(s: string)
    ensures Keep(s) == s <==> AllAsciiAlnum(s)
  {
    if s != [] {
      KeepFixed(s[1..]);
      if !IsAsciiAlnum(s[0]) {
        assert |Keep(s)| <= |s[1..]| < |s|;
      }
    }
  }

  /** Keep drops exactly the characters the filter rejects. */
  lemma {:induction false} KeepMembers(s: string, c: char)
    ensures c in Keep(s) <==> c in s && IsAsciiAlnum(c)
  {
    if s != [] {
      KeepMembers(s[1..], c);
      assert s == [s[0]] + s[1..];
    }
  }

  lemma KeepIdempotent(s: string)
    ensures Keep(Keep(s)) == Keep(s)
  {
    KeepFixed(Keep(s));
  }

  /** The status context for the request's "context" value. */
  function Label(suffix: string): (l: string)
    ensures BaseContext <= l
    ensures suffix == [] <==> l == BaseContext
    ensures suffix != [] ==> l[|BaseContext|] == '/' && l[|BaseContext| + 1..] == Keep(suffix)
  {
    if suffix == [] then BaseContext else BaseContext + "/" + Keep(suffix)
  }

  /** A suffix with nothing to keep still adds the separator. */
  lemma AllDroppedKeepsSeparator(suffix: string)
    requires suffix != [] && forall i :: 0 <= i < |suffix| ==> !IsAsciiAlnum(suffix[i])
    ensures Label(suffix) == "ci/cloudbuild/"
  {
    if Keep(suffix) != [] {
      KeepMembers(suffix, Keep(suffix)[0]);
    }
  }

  lemma ExampleSuffix()
    ensures Label("fo!o_1") == "ci/cloudbuild/foo1"
  {
  }
}
