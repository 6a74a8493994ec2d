/**
  String helpers shared by both feed pipelines: Python's `str.strip()`, `casefold()`,
  the `<[^>]+>` tag-stripping regex and the `[^A-Za-z0-9]` identifier filter.
 */
module Text {
  import opened Wrappers
  import Seqs

  /** The characters Python's `str.strip()` and `str.split()` treat as whitespace. */
  predicate IsSpace(c: char) {
    || c == ' '
    || ('\t' <= c <= '\r')
    || ('\U{1c}' <= c <= '\U{1f}')
    || c == '\U{85}' || c == '\U{a0}' || c == '\U{1680}'
    || ('\U{2000}' <= c <= '\U{200a}')
    || c == '\U{2028}' || c == '\U{2029}' || c == '\U{202f}' || c == '\U{205f}' || c == '\U{3000}'
  }

  /** No whitespace at either end. */
  predicate IsTrimmed(s: string) {
    s == [] || (!IsSpace(s[0]) && !IsSpace(s[|s| - 1]))
  }

  /** Drops leading whitespace. */
  function TrimStart(s: string): (r: string)
    ensures |r| <= |s|
    ensures r == [] || !IsSpace(r[0])
  {
    if s != [] && IsSpace(s[0]) then TrimStart(s[1..]) else s
  }

  /** What `TrimStart` keeps is the suffix that starts at the first non-space. */
  lemma {:induction false} TrimStartSuffix(s: string)
    ensures TrimStart(s) == s[|s| - |TrimStart(s)|..]
    ensures forall i :: 0 <= i < |s| - |TrimStart(s)| ==> IsSpace(s[i])
    decreases |s|
  {
    if s != [] && IsSpace(s[0]) {
      TrimStartSuffix(s[1..]);
      assert forall i :: 1 <= i < |s| ==> s[i] == s[1..][i - 1];
    }
  }

  /** Drops trailing whitespace. */
  function TrimEnd(s: string): (r: string)
    ensures |r| <= |s|
    ensures r == [] || !IsSpace(r[|r| - 1])
  {
    if s != [] && IsSpace(s[|s| - 1]) then TrimEnd(s[..|s| - 1]) else s
  }

  /** What `TrimEnd` keeps is the prefix that ends at the last non-space. */
  lemma {:induction false} TrimEndPrefix(s: string)
    ensures TrimEnd(s) == s[..|TrimEnd(s)|]
    ensures forall i :: |TrimEnd(s)| <= i < |s| ==> IsSpace(s[i])
    decreases |s|
  {
    if s != [] && IsSpace(s[|s| - 1]) {
      var init := s[..|s| - 1];
      TrimEndPrefix(init);
      assert init[..|TrimEnd(s)|] == s[..|TrimEnd(s)|];
    }
  }

  /** `str.strip()`. */
  function Trim(s: string): (r: string)
    ensures IsTrimmed(r) && |r| <= |s|
  {
    var u := TrimStart(s);
    TrimEndPrefix(u);
    TrimEnd(u)
  }

  /** A string without surrounding whitespace is its own trim. */
  lemma TrimTrimmed(s: string)
    requires IsTrimmed(s)
    ensures Trim(s) == s
  {
  }

  /** `normalize_text`: `(value or "").strip()`. */
  function NormalizeText(value: Option<string>): (r: string)
    ensures IsTrimmed(r)
  {
    Trim(value.GetOr(""))
  }

  /** Lower-cases ASCII and basic Cyrillic capitals; every other character is kept. */
  function FoldChar(c: char): char {
    if 'A' <= c <= 'Z' || '\U{410}' <= c <= '\U{42f}' then (c as int + 32) as char
    else if '\U{400}' <= c <= '\U{40f}' then (c as int + 80) as char
    else c
  }

  /** `str.casefold()` (and `str.lower()`), character by character. */
  function CaseFold(s: string): (r: string)
    ensures |r| == |s|
    ensures forall i :: 0 <= i < |s| ==> r[i] == FoldChar(s[i])
  {
    if s == [] then [] else [FoldChar(s[0])] + CaseFold(s[1..])
  }

  /** Folding keeps whitespace where it was and is idempotent. */
  lemma FoldCharFacts(c: char)
    ensures IsSpace(FoldChar(c)) <==> IsSpace(c)
    ensures FoldChar(FoldChar(c)) == FoldChar(c)
  {
  }

  /** `normalize_key`: trimmed, then case-folded. */
  function NormalizeKey(value: Option<string>): (r: string)
    ensures |r| == |NormalizeText(value)|
    ensures IsTrimmed(r)
  {
    var t := NormalizeText(value);
    CaseFoldTrimmed(t);
    CaseFold(t)
  }

  lemma CaseFoldTrimmed(t: string)
    requires IsTrimmed(t)
    ensures IsTrimmed(CaseFold(t))
  {
    if t != [] {
      FoldCharFacts(t[0]);
      FoldCharFacts(t[|t| - 1]);
    }
  }

  /** Index of the first `c` in `s`, or `|s|` when `c` does not occur. */
  function IndexOf(s: string, c: char): (k: nat)
    ensures k <= |s|
    ensures k < |s| ==> s[k] == c
    ensures forall j :: 0 <= j < k ==> s[j] != c
  {
    if s == [] then 0 else if s[0] == c then 0 else 1 + IndexOf(s[1..], c)
  }

  /** The regular expression `<[^>]+>` matches at position `i` of `s`. */
  predicate TagAt(s: string, i: nat) {
    i + 2 < |s| && s[i] == '<' && s[i + 1] != '>' && '>' in s[i + 2..]
  }

  /** No match of `<[^>]+>` anywhere in `s`. */
  predicate TagFree(s: string) {
    forall i :: 0 <= i < |s| ==> !TagAt(s, i)
  }

  /**
    `RE_HTML_TAG.sub("", s)`: scanning left to right, a `<` that starts a match is
    deleted together with everything up to the first `>` after it; every other
    character is kept.
   */
  function StripTags(s: string): (r: string)
    ensures |r| <= |s|
    ensures forall c :: c in r ==> c in s
    decreases |s|
  {
    if s == [] then []
    else if TagAt(s, 0) then
      var close := 2 + IndexOf(s[2..], '>');
      StripTags(s[close + 1..])
    else
      [s[0]] + StripTags(s[1..])
  }

  /** `strip_html`: tags removed, then trimmed. */
  function StripHtml(s: string): (r: string)
    ensures IsTrimmed(r)
  {
    Trim(StripTags(s))
  }

  lemma TagAtCons(x: char, s: string, i: nat)
    ensures TagAt([x] + s, i + 1) <==> TagAt(s, i)
  {
    if i + 2 < |s| {
      assert ([x] + s)[i + 3..] == s[i + 2..];
    }
  }

  /** A character the substitution keeps never starts a match in the output. */
  lemma {:induction false} KeptHeadNotTag(s: string)
    requires s != [] && !TagAt(s, 0)
    ensures !TagAt([s[0]] + StripTags(s[1..]), 0)
  {
    var rest := StripTags(s[1..]);
    var r := [s[0]] + rest;
    if s[0] == '<' && |s| > 2 {
      if s[1] == '>' {
        assert !TagAt(s[1..], 0);
        assert StripTags(s[1..]) == [s[1]] + StripTags(s[2..]);
        assert r[1] == '>';
      } else {
        assert '>' !in s[2..];
        assert '>' !in s[1..];
        assert '>' !in rest;
        assert r[2..] == rest[1..];
      }
    }
  }

  /** Any slice of a tag-free string is tag-free. */
  lemma {:induction false} SliceTagFree(s: string, a: nat, b: nat)
    requires TagFree(s) && a <= b <= |s|
    ensures TagFree(s[a..b])
  {
    var t := s[a..b];
    forall i | 0 <= i < |t| ensures !TagAt(t, i) {
      if TagAt(t, i) {
        var k := IndexOf(t[i + 2..], '>');
        assert s[a + i + 2 + k] == '>';
        assert '>' in s[a + i + 2..] by { assert s[a + i + 2..][k] == '>'; }
        assert TagAt(s, a + i);
      }
    }
  }

  /** What the substitution leaves contains no further match: one pass removes every tag. */
  lemma {:induction false} StripTagsTagFree(s: string)
    ensures TagFree(StripTags(s))
    decreases |s|
  {
    if s == [] {
    } else if TagAt(s, 0) {
      var close := 2 + IndexOf(s[2..], '>');
      StripTagsTagFree(s[close + 1..]);
    } else {
      StripTagsTagFree(s[1..]);
      KeptHeadTagFree(s);
    }
  }

  /** A kept first character in front of a tag-free rest gives a tag-free string. */
  lemma KeptHeadTagFree(s: string)
    requires s != [] && !TagAt(s, 0) && TagFree(StripTags(s[1..]))
    ensures TagFree([s[0]] + StripTags(s[1..]))
  {
    var rest := StripTags(s[1..]);
    var r := [s[0]] + rest;
    forall i | 0 <= i < |r| ensures !TagAt(r, i) {
      if i == 0 {
        KeptHeadNotTag(s);
      } else {
        TagAtCons(s[0], rest, i - 1);
      }
    }
  }

  /** A tag-free string passes through the substitution unchanged. */
  lemma {:induction false} StripTagsTagFreeFixed(s: string)
    requires TagFree(s)
    ensures StripTags(s) == s
    decreases |s|
  {
    if s != [] {
      assert !TagAt(s, 0);
      SliceTagFree(s, 1, |s|);
      assert s[1..|s|] == s[1..];
      StripTagsTagFreeFixed(s[1..]);
    }
  }

  /** Trimming a tag-free string leaves it tag-free. */
  lemma TrimTagFree(t: string)
    requires TagFree(t)
    ensures TagFree(Trim(t))
  {
    var u := TrimStart(t);
    TrimStartSuffix(t);
    SliceTagFree(t, |t| - |u|, |t|);
    assert u == t[|t| - |u|..|t|];
    var v := TrimEnd(u);
    TrimEndPrefix(u);
    SliceTagFree(u, 0, |v|);
    assert v == u[0..|v|];
    assert Trim(t) == v;
  }

  /** Stripping HTML twice is the same as stripping it once. */
  lemma StripHtmlIdempotent(s: string)
    ensures TagFree(StripHtml(s))
    ensures StripHtml(StripHtml(s)) == StripHtml(s)
  {
    var v := StripHtml(s);
    StripTagsTagFree(s);
    TrimTagFree(StripTags(s));
    StripTagsTagFreeFixed(v);
    TrimTrimmed(v);
  }

  /** The characters `[A-Za-z0-9]` that `RE_ID_ALLOWED` keeps. */
  predicate IsIdChar(c: char) {
    'A' <= c <= 'Z' || 'a' <= c <= 'z' || '0' <= c <= '9'
  }

  /**
    `RE_ID_ALLOWED.sub("", s)`: every character outside `[A-Za-z0-9]` deleted; the result
    is empty exactly when `s` has no such character, and a clean input is returned as is.
   */
  function CleanId(s: string): (r: string)
    ensures |r| <= |s|
    ensures forall i :: 0 <= i < |r| ==> IsIdChar(r[i])
    ensures r == [] <==> forall i :: 0 <= i < |s| ==> !IsIdChar(s[i])
    ensures (forall i :: 0 <= i < |s| ==> IsIdChar(s[i])) ==> r == s
  {
    if s == [] then []
    else if IsIdChar(s[0]) then [s[0]] + CleanId(s[1..])
    else CleanId(s[1..])
  }

  /** The filter works character by character: cleaning a concatenation cleans each part. */
  lemma {:induction false} CleanIdAppend(a: string, b: string)
    ensures CleanId(a + b) == CleanId(a) + CleanId(b)
    decreases |a|
  {
    if a == [] {
      assert a + b == b;
    } else {
      assert (a + b)[0] == a[0];
      assert (a + b)[1..] == a[1..] + b;
      CleanIdAppend(a[1..], b);
    }
  }

  /** A single character is kept exactly when it is in `[A-Za-z0-9]`. */
  lemma CleanIdChar(c: char)
    ensures CleanId([c]) == if IsIdChar(c) then [c] else []
  {
    assert [c][1..] == [];
  }

  /**
    `CleanId` deletes exactly the characters outside `[A-Za-z0-9]` and keeps the others in
    their order: it is the filter of the input by `IsIdChar`.
   */
  lemma {:induction false} CleanIdIsFilter(s: string)
    ensures CleanId(s) == Seqs.Filter(s, IsIdChar)
    decreases |s|
  {
    if s != [] {
      var init := s[..|s| - 1];
      var x := s[|s| - 1];
      assert s == init + [x];
      CleanIdAppend(init, [x]);
      CleanIdChar(x);
      CleanIdIsFilter(init);
    }
  }
}
