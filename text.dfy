/**
 * JavaScript string operations used by the services: `String.prototype.split`
 * with a non-empty separator, joining parts back with the separator,
 * `String.prototype.trim`, and `String.prototype.replace` with a string pattern.
 */
module Text {

  /** `s.split(sep)` for a non-empty separator: cut at each leftmost, non-overlapping match. */
  function Split(s: string, sep: string): (parts: seq<string>)
    requires |sep| > 0
    ensures |parts| >= 1
    decreases |s|
  {
    if |s| < |sep| then [s]
    else if s[..|sep|] == sep then [""] + Split(s[|sep|..], sep)
    else
      var rest := Split(s[1..], sep);
      [[s[0]] + rest[0]] + rest[1..]
  }

  /** `parts.join(sep)`. */
  function Join(parts: seq<string>, sep: string): string
    requires |parts| >= 1
  {
    if |parts| == 1 then parts[0] else parts[0] + sep + Join(parts[1..], sep)
  }

  /** `sep` occurs in `s` at position `i`. */
  predicate MatchAt(s: string, sep: string, i: nat)
  {
    i + |sep| <= |s| && s[i..i + |sep|] == sep
  }

  /** No occurrence of `sep` in `s` starts before position `n`. */
  predicate NoMatchBefore(s: string, sep: string, n: nat)
  {
    forall i: nat :: i < n ==> !MatchAt(s, sep, i)
  }

  /** Splitting and joining with the same separator gives back the text. */
  lemma {:induction false} JoinSplit(s: string, sep: string)
    requires |sep| > 0
    ensures Join(Split(s, sep), sep) == s
    decreases |s|
  {
    if |s| < |sep| {
    } else if s[..|sep|] == sep {
      var tail := s[|sep|..];
      JoinSplit(tail, sep);
      assert Split(s, sep) == [""] + Split(tail, sep);
      assert s == "" + sep + tail;
    } else {
      var rest := Split(s[1..], sep);
      JoinSplit(s[1..], sep);
      assert Split(s, sep) == [[s[0]] + rest[0]] + rest[1..];
      JoinExtendFirst(s[0], rest, sep);
      assert s == [s[0]] + s[1..];
    }
  }

  /** Putting a character in front of the first part puts it in front of the joined text. */
  lemma JoinExtendFirst(c: char, parts: seq<string>, sep: string)
    requires |parts| >= 1
    ensures Join([[c] + parts[0]] + parts[1..], sep) == [c] + Join(parts, sep)
  {
    var extended := [[c] + parts[0]] + parts[1..];
    if |parts| > 1 {
      assert extended[1..] == parts[1..];
    }
  }

  /** A text in which the separator never occurs is split into itself alone. */
  lemma {:induction false} SplitWithoutMatch(s: string, sep: string)
    requires |sep| > 0
    requires NoMatchBefore(s, sep, |s|)
    ensures Split(s, sep) == [s]
    decreases |s|
  {
    if |s| >= |sep| {
      assert !MatchAt(s, sep, 0);
      assert s[..|sep|] != sep;
      forall i: nat | i < |s[1..]| ensures !MatchAt(s[1..], sep, i) {
        assert !MatchAt(s, sep, i + 1);
        if i + |sep| <= |s[1..]| {
          assert s[1..][i..i + |sep|] == s[i + 1..i + 1 + |sep|];
        }
      }
      SplitWithoutMatch(s[1..], sep);
      assert s == [s[0]] + s[1..];
    }
  }

  /**
   * The first part ends at the first match: when no occurrence of `sep` in
   * `a + sep` starts inside `a`, splitting `a + sep + b` yields `a` and then the
   * parts of `b`.
   */
  lemma {:induction false} SplitAtFirstMatch(a: string, sep: string, b: string)
    requires |sep| > 0
    requires NoMatchBefore(a + sep, sep, |a|)
    ensures Split(a + sep + b, sep) == [a] + Split(b, sep)
    decreases |a|
  {
    var s := a + sep + b;
    if a == [] {
      assert s[..|sep|] == sep;
      assert s[|sep|..] == b;
    } else {
      assert !MatchAt(a + sep, sep, 0);
      assert (a + sep)[..|sep|] == s[..|sep|];
      assert s[..|sep|] != sep;
      var a' := a[1..];
      NoMatchAfterFirst(a, sep);
      SplitAtFirstMatch(a', sep, b);
      assert s[1..] == a' + sep + b;
      assert a == [s[0]] + a';
      assert Split(s, sep) == [[s[0]] + a'] + Split(b, sep);
    }
  }

  /** Dropping the first character of `a` keeps `sep` from matching inside what is left of `a`. */
  lemma NoMatchAfterFirst(a: string, sep: string)
    requires a != [] && NoMatchBefore(a + sep, sep, |a|)
    ensures NoMatchBefore(a[1..] + sep, sep, |a| - 1)
  {
    var a' := a[1..];
    assert (a + sep)[1..] == a' + sep;
    forall i: nat | i < |a'| ensures !MatchAt(a' + sep, sep, i) {
      assert !MatchAt(a + sep, sep, i + 1);
      if i + |sep| <= |a' + sep| {
        assert (a' + sep)[i..i + |sep|] == (a + sep)[i + 1..i + 1 + |sep|];
      }
    }
  }

  /** A one-character separator cannot match inside a prefix that does not contain it. */
  lemma CharAbsent(s: string, t: string, c: char)
    requires c !in s
    ensures NoMatchBefore(s + t, [c], |s|)
  {
    forall i: nat | i < |s| ensures !MatchAt(s + t, [c], i) {
      assert (s + t)[i..i + 1] == [s[i]];
    }
  }

  /** For a one-character separator: joining parts that do not contain it and splitting again gives the parts back. */
  lemma {:induction false} SplitJoin(parts: seq<string>, c: char)
    requires |parts| >= 1
    requires forall k :: 0 <= k < |parts| ==> c !in parts[k]
    ensures Split(Join(parts, [c]), [c]) == parts
    decreases |parts|
  {
    var p := parts[0];
    CharAbsent(p, [c], c);
    if |parts| == 1 {
      CharAbsent(p, [], c);
      assert p + [] == p;
      SplitWithoutMatch(p, [c]);
    } else {
      SplitJoin(parts[1..], c);
      SplitAtFirstMatch(p, [c], Join(parts[1..], [c]));
      assert parts == [p] + parts[1..];
    }
  }

  /** The characters `String.prototype.trim` removes: white space and line terminators. */
  predicate IsWhiteSpace(c: char)
  {
    c == '\t' || c == '\n' || c == '\U{B}' || c == '\U{C}' || c == '\r' || c == ' '
    || c == '\U{A0}' || c == '\U{1680}' || ('\U{2000}' <= c <= '\U{200A}')
    || c == '\U{2028}' || c == '\U{2029}' || c == '\U{202F}' || c == '\U{205F}'
    || c == '\U{3000}' || c == '\U{FEFF}'
  }

  function TrimStart(s: string): (r: string)
    ensures |r| <= |s|
    ensures r == [] || !IsWhiteSpace(r[0])
    ensures forall i :: 0 <= i < |s| - |r| ==> IsWhiteSpace(s[i])
  {
    if s != [] && IsWhiteSpace(s[0]) then TrimStart(s[1..]) else s
  }

  function TrimEnd(s: string): (r: string)
    ensures |r| <= |s|
    ensures r == [] || !IsWhiteSpace(r[|r| - 1])
    ensures forall i :: |r| <= i < |s| ==> IsWhiteSpace(s[i])
  {
    if s != [] && IsWhiteSpace(s[|s| - 1]) then TrimEnd(s[..|s| - 1]) else s
  }

  /** `s.trim()`: the text without leading and trailing white space. */
  function Trim(s: string): (r: string)
    ensures r == [] || (!IsWhiteSpace(r[0]) && !IsWhiteSpace(r[|r| - 1]))
    ensures |r| <= |s|
  {
    TrimEndIsPrefix(TrimStart(s));
    TrimEnd(TrimStart(s))
  }

  /** `TrimStart` keeps a suffix of the text. */
  lemma {:induction false} TrimStartIsSuffix(s: string)
    ensures TrimStart(s) == s[|s| - |TrimStart(s)|..]
  {
    if s != [] && IsWhiteSpace(s[0]) {
      TrimStartIsSuffix(s[1..]);
      assert s[1..][|s[1..]| - |TrimStart(s[1..])|..] == s[|s| - |TrimStart(s)|..];
    }
  }

  /** `TrimEnd` keeps a prefix of the text. */
  lemma {:induction false} TrimEndIsPrefix(s: string)
    ensures TrimEnd(s) == s[..|TrimEnd(s)|]
  {
    if s != [] && IsWhiteSpace(s[|s| - 1]) {
      TrimEndIsPrefix(s[..|s| - 1]);
      assert s[..|s| - 1][..|TrimEnd(s)|] == s[..|TrimEnd(s)|];
    }
  }

  /** What `trim` keeps is one contiguous part of the text, `s[i..j]`, and all it removes is white space. */
  lemma TrimIsSlice(s: string) returns (i: nat, j: nat)
    ensures i <= j <= |s| && Trim(s) == s[i..j]
    ensures forall k :: 0 <= k < i || j <= k < |s| ==> IsWhiteSpace(s[k])
  {
    var t := TrimStart(s);
    var r := TrimEnd(t);
    TrimStartIsSuffix(s);
    TrimEndIsPrefix(t);
    i, j := |s| - |t|, |s| - |t| + |r|;
    assert t == s[i..] && r == t[..|r|];
    forall k | j <= k < |s| ensures IsWhiteSpace(s[k]) {
      assert s[k] == t[k - i];
    }
  }

  /** White space added before a text is trimmed away with the rest. */
  lemma TrimPaddedStart(a: string, c: char)
    requires IsWhiteSpace(c)
    ensures Trim([c] + a) == Trim(a)
  {
    assert ([c] + a)[1..] == a;
  }

  /** White space added after a text is trimmed away with the rest. */
  lemma TrimPaddedEnd(a: string, d: char)
    requires IsWhiteSpace(d)
    ensures Trim(a + [d]) == Trim(a)
  {
    TrimStartAppend(a, d);
    if TrimStart(a) != [] {
      assert (TrimStart(a) + [d])[..|TrimStart(a) + [d]| - 1] == TrimStart(a);
    }
  }

  /** Trimming the start of a text that gets a white-space character appended. */
  lemma {:induction false} TrimStartAppend(a: string, d: char)
    requires IsWhiteSpace(d)
    ensures TrimStart(a + [d]) == if TrimStart(a) == [] then [] else TrimStart(a) + [d]
  {
    if a == [] {
      assert ([d])[1..] == [];
    } else if IsWhiteSpace(a[0]) {
      assert (a + [d])[1..] == a[1..] + [d];
      TrimStartAppend(a[1..], d);
    }
  }

  /** Trimming a text that neither starts nor ends with white space changes nothing. */
  lemma TrimNoOp(s: string)
    requires s == [] || (!IsWhiteSpace(s[0]) && !IsWhiteSpace(s[|s| - 1]))
    ensures Trim(s) == s
  {
  }

  /** `s.replace(pattern, "")` with a string pattern: remove the first occurrence only. */
  function RemoveFirst(s: string, pattern: string): (r: string)
    requires |pattern| > 0
    ensures NoMatchBefore(s, pattern, |s|) ==> r == s
    decreases |s|
  {
    if |s| < |pattern| then s
    else if s[..|pattern|] == pattern then assert MatchAt(s, pattern, 0); s[|pattern|..]
    else
      assert forall i: nat :: MatchAt(s[1..], pattern, i) ==> MatchAt(s, pattern, i + 1) by {
        forall i: nat | MatchAt(s[1..], pattern, i) ensures MatchAt(s, pattern, i + 1) {
          assert s[1..][i..i + |pattern|] == s[i + 1..i + 1 + |pattern|];
        }
      }
      [s[0]] + RemoveFirst(s[1..], pattern)
  }

  /** `replace` removes the leftmost occurrence of the pattern and keeps everything around it. */
  lemma {:induction false} RemoveFirstMatch(s: string, pattern: string, i: nat)
    requires |pattern| > 0
    requires MatchAt(s, pattern, i) && NoMatchBefore(s, pattern, i)
    ensures RemoveFirst(s, pattern) == s[..i] + s[i + |pattern|..]
    decreases i
  {
    if i > 0 {
      assert !MatchAt(s, pattern, 0);
      var t := s[1..];
      MatchShift(s, pattern, i - 1);
      forall j: nat | j < i - 1 ensures !MatchAt(t, pattern, j) {
        MatchShift(s, pattern, j);
      }
      RemoveFirstMatch(t, pattern, i - 1);
      assert s[..i] == [s[0]] + t[..i - 1];
      assert s[i + |pattern|..] == t[i - 1 + |pattern|..];
    }
  }

  /** A match in the tail of a text is a match one place further on in the text. */
  lemma MatchShift(s: string, pattern: string, j: nat)
    requires s != []
    ensures MatchAt(s[1..], pattern, j) <==> MatchAt(s, pattern, j + 1)
  {
    if j + 1 + |pattern| <= |s| {
      assert s[1..][j..j + |pattern|] == s[j + 1..j + 1 + |pattern|];
    }
  }
}
