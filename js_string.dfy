/** The JavaScript string operations the service relies on, over `seq<char>`:
    coercion of an absent value to `""`, `toLowerCase` (ASCII letters only),
    `trim`, removal of a literal prefix (what an anchored `replace(/^.../, "")`
    does), `startsWith` and `split` with a one-character separator.

    The functions carry short contracts; what they compute is stated by the
    lemmas next to them, which proofs call where they need it. */
module JsString {
  import opened Wrappers

  /** `String(raw || "")` for a request field that is absent or a string. */
  function Coerce(raw: Option<string>): (r: string)
    ensures raw.None? ==> r == ""
    ensures raw.Some? ==> r == raw.value
  {
    if raw.Some? then raw.value else ""
  }

  /** The characters `String.prototype.trim` removes: ECMAScript WhiteSpace
      (tab, vertical tab, form feed, space, no-break space, byte order mark and
      the space separators) and LineTerminator (LF, CR, LS, PS). */
  predicate IsWhitespace(c: char) {
    || c == '\t' || c == '\n' || c == '\U{000B}' || c == '\U{000C}' || c == '\r'
    || c == ' ' || c == '\U{00A0}' || c == '\U{1680}'
    || ('\U{2000}' <= c <= '\U{200A}')
    || c == '\U{2028}' || c == '\U{2029}' || c == '\U{202F}' || c == '\U{205F}'
    || c == '\U{3000}' || c == '\U{FEFF}'
  }

  predicate IsUpper(c: char) { 'A' <= c <= 'Z' }

  predicate IsLower(c: char) { 'a' <= c <= 'z' }

  /** No upper-case ASCII letter anywhere in `s`. */
  predicate NoUpper(s: string) {
    forall i :: 0 <= i < |s| ==> !IsUpper(s[i])
  }

  /** Concatenation is associative. */
  lemma AppendAssoc(a: string, b: string, c: string)
    ensures a + b + c == a + (b + c)
  {
  }

  /** Every slice of a string with no upper-case letter has none either. */
  lemma NoUpperSlice(s: string, i: int, j: int)
    requires NoUpper(s) && 0 <= i <= j <= |s|
    ensures NoUpper(s[i..j])
  {
    forall k | 0 <= k < j - i ensures !IsUpper(s[i..j][k]) {
      assert s[i..j][k] == s[i + k];
    }
  }

  lemma NoUpperConcat(a: string, b: string)
    requires NoUpper(a) && NoUpper(b)
    ensures NoUpper(a + b)
  {
    forall i | 0 <= i < |a + b| ensures !IsUpper((a + b)[i]) {
      if i >= |a| {
        assert (a + b)[i] == b[i - |a|];
      }
    }
  }

  function LowerChar(c: char): (r: char)
    ensures !IsUpper(r)
    ensures !IsUpper(c) ==> r == c
    ensures IsUpper(c) ==> IsLower(r) && r as int == c as int + 32
  {
    if IsUpper(c) then (c as int + 32) as char else c
  }

  /** `s.toLowerCase()` for ASCII letters; every other character is kept. */
  function ToLowerCase(s: string): (r: string)
    ensures |r| == |s|
    decreases |s|
  {
    if s == [] then [] else [LowerChar(s[0])] + ToLowerCase(s[1..])
  }

  /** Lower-casing works character by character. */
  lemma {:induction false} ToLowerCaseAt(s: string, i: int)
    requires 0 <= i < |s|
    ensures ToLowerCase(s)[i] == LowerChar(s[i])
    decreases |s|
  {
    if i > 0 {
      ToLowerCaseAt(s[1..], i - 1);
    }
  }

  /** The result of lower-casing has no upper-case letter; every other
      character keeps its place, and each upper-case letter becomes the
      lower-case letter 32 code points further on. */
  lemma ToLowerCaseSpec(s: string)
    ensures NoUpper(ToLowerCase(s))
    ensures forall i :: 0 <= i < |s| && !IsUpper(s[i]) ==> ToLowerCase(s)[i] == s[i]
    ensures forall i :: 0 <= i < |s| && IsUpper(s[i]) ==>
              IsLower(ToLowerCase(s)[i]) && ToLowerCase(s)[i] as int == s[i] as int + 32
  {
    forall i | 0 <= i < |s| ensures ToLowerCase(s)[i] == LowerChar(s[i]) {
      ToLowerCaseAt(s, i);
    }
  }

  /** Lower-casing a string that has no upper-case letter changes nothing. */
  lemma {:induction false} ToLowerCaseNoUpper(s: string)
    requires NoUpper(s)
    ensures ToLowerCase(s) == s
    decreases |s|
  {
    if s != [] {
      assert !IsUpper(s[0]);
      NoUpperSlice(s, 1, |s|);
      assert s[1..|s|] == s[1..];
      ToLowerCaseNoUpper(s[1..]);
      assert [s[0]] + s[1..] == s;
    }
  }

  /** Lower-casing distributes over concatenation. */
  lemma {:induction false} ToLowerCaseConcat(a: string, b: string)
    ensures ToLowerCase(a + b) == ToLowerCase(a) + ToLowerCase(b)
    decreases |a|
  {
    if a != [] {
      assert (a + b)[0] == a[0];
      assert (a + b)[1..] == a[1..] + b;
      ToLowerCaseConcat(a[1..], b);
    } else {
      assert a + b == b;
    }
  }

  /** Lower-casing twice is lower-casing once. */
  lemma ToLowerCaseIdempotent(s: string)
    ensures ToLowerCase(ToLowerCase(s)) == ToLowerCase(s)
  {
    ToLowerCaseSpec(s);
    ToLowerCaseNoUpper(ToLowerCase(s));
  }

  /** Drops the leading whitespace: the result is a suffix of `s`. */
  function TrimStart(s: string): (r: string)
    ensures |r| <= |s| && r == s[|s| - |r|..]
    decreases |s|
  {
    if s != [] && IsWhitespace(s[0]) then TrimStart(s[1..]) else s
  }

  /** All that `TrimStart` drops is whitespace, and what it keeps does not
      start with whitespace. */
  lemma {:induction false} TrimStartSpec(s: string)
    ensures forall i :: 0 <= i < |s| - |TrimStart(s)| ==> IsWhitespace(s[i])
    ensures TrimStart(s) == [] || !IsWhitespace(TrimStart(s)[0])
    decreases |s|
  {
    if s != [] && IsWhitespace(s[0]) {
      TrimStartSpec(s[1..]);
      forall i | 1 <= i < |s| - |TrimStart(s)| ensures IsWhitespace(s[i]) {
        assert s[i] == s[1..][i - 1];
      }
    }
  }

  /** Drops the trailing whitespace: the result is a prefix of `s`. */
  function TrimEnd(s: string): (r: string)
    ensures |r| <= |s| && r == s[..|r|]
    decreases |s|
  {
    if s != [] && IsWhitespace(s[|s| - 1]) then TrimEnd(s[..|s| - 1]) else s
  }

  /** All that `TrimEnd` drops is whitespace, and what it keeps does not end
      with whitespace. */
  lemma {:induction false} TrimEndSpec(s: string)
    ensures forall i :: |TrimEnd(s)| <= i < |s| ==> IsWhitespace(s[i])
    ensures TrimEnd(s) == [] || !IsWhitespace(TrimEnd(s)[|TrimEnd(s)| - 1])
    decreases |s|
  {
    if s != [] && IsWhitespace(s[|s| - 1]) {
      TrimEndSpec(s[..|s| - 1]);
      forall i | |TrimEnd(s)| <= i < |s| - 1 ensures IsWhitespace(s[i]) {
        assert s[i] == s[..|s| - 1][i];
      }
    }
  }

  /** `s.trim()`. */
  function Trim(s: string): (r: string)
    ensures |r| <= |s|
  {
    TrimEnd(TrimStart(s))
  }

  /** `r` is `s[k..k + |r|]` and everything of `s` around it is whitespace. */
  predicate SliceBetweenWhitespace(s: string, k: int, r: string) {
    && 0 <= k <= |s| - |r|
    && r == s[k..k + |r|]
    && (forall i :: 0 <= i < k ==> IsWhitespace(s[i]))
    && (forall i :: k + |r| <= i < |s| ==> IsWhitespace(s[i]))
  }

  /** Whitespace dropped from the front of `s`, then from the back of what
      remains, leaves a slice of `s` between whitespace. */
  lemma SliceOfSuffixPrefix(s: string, t: string, r: string)
    requires |t| <= |s| && t == s[|s| - |t|..]
    requires |r| <= |t| && r == t[..|r|]
    requires forall i :: 0 <= i < |s| - |t| ==> IsWhitespace(s[i])
    requires forall i :: |r| <= i < |t| ==> IsWhitespace(t[i])
    ensures SliceBetweenWhitespace(s, |s| - |t|, r)
  {
    var k := |s| - |t|;
    forall i | k + |r| <= i < |s|
      ensures IsWhitespace(s[i])
    {
      assert s[i] == t[i - k];
    }
  }

  /** `trim` gives a contiguous slice of `s` obtained by dropping only
      whitespace. */
  lemma TrimSpec(s: string)
    ensures SliceBetweenWhitespace(s, |s| - |TrimStart(s)|, Trim(s))
  {
    TrimStartSpec(s);
    TrimEndSpec(TrimStart(s));
    SliceOfSuffixPrefix(s, TrimStart(s), TrimEnd(TrimStart(s)));
  }

  /** A trimmed string has no whitespace at either end. */
  lemma TrimEnds(s: string)
    ensures Trim(s) == [] || (!IsWhitespace(Trim(s)[0]) && !IsWhitespace(Trim(s)[|Trim(s)| - 1]))
  {
    var t := TrimStart(s);
    var r := TrimEnd(t);
    TrimStartSpec(s);
    TrimEndSpec(t);
    if r != [] {
      assert r == t[..|r|];
      assert r[0] == t[0];
    }
  }

  /** Trimming a string that has no whitespace at either end changes nothing. */
  lemma TrimClean(s: string)
    requires s == [] || (!IsWhitespace(s[0]) && !IsWhitespace(s[|s| - 1]))
    ensures Trim(s) == s
  {
  }

  /** A trimmed string keeps its length only when nothing was trimmed. */
  lemma TrimSameLength(s: string)
    requires |Trim(s)| == |s|
    ensures Trim(s) == s
  {
    var t := TrimStart(s);
    assert |t| == |s|;
    assert t == s[0..];
  }

  /** Trimming keeps a string free of upper-case letters. */
  lemma NoUpperTrim(s: string)
    requires NoUpper(s)
    ensures NoUpper(Trim(s))
  {
    TrimSpec(s);
    var k := |s| - |TrimStart(s)|;
    NoUpperSlice(s, k, k + |Trim(s)|);
  }

  /** Nothing is trimmed at the start of a string that starts with a
      non-whitespace character, whatever follows. */
  lemma TrimStartFrom(a: string, b: string)
    requires a != [] && !IsWhitespace(a[0])
    ensures TrimStart(a + b) == a + b
  {
    assert (a + b)[0] == a[0];
  }

  /** Trailing whitespace is only looked for after the last non-whitespace
      character. */
  lemma {:induction false} TrimEndAfter(a: string, b: string)
    requires a != [] && !IsWhitespace(a[|a| - 1])
    ensures TrimEnd(a + b) == a + TrimEnd(b)
    decreases |b|
  {
    var s := a + b;
    if b == [] {
      assert s == a;
    } else if IsWhitespace(b[|b| - 1]) {
      assert s[|s| - 1] == b[|b| - 1];
      assert s[..|s| - 1] == a + b[..|b| - 1];
      TrimEndAfter(a, b[..|b| - 1]);
    } else {
      assert s[|s| - 1] == b[|b| - 1];
    }
  }

  /** Appending one character to a string appends it to the string's
      leading-whitespace-free part, unless everything is whitespace. */
  lemma {:induction false} TrimStartAppend(t: string, c: char)
    ensures TrimStart(t + [c]) == if TrimStart(t) == [] && IsWhitespace(c) then [] else TrimStart(t) + [c]
    decreases |t|
  {
    var s := t + [c];
    if t == [] {
      assert s == [c];
      assert [c][1..] == [];
    } else if IsWhitespace(t[0]) {
      assert s[0] == t[0] && s[1..] == t[1..] + [c];
      TrimStartAppend(t[1..], c);
    } else {
      assert s[0] == t[0];
    }
  }

  /** Trimming ignores one more whitespace character at the end. */
  lemma TrimAppendWhitespace(t: string, c: char)
    requires IsWhitespace(c)
    ensures Trim(t + [c]) == Trim(t)
  {
    TrimStartAppend(t, c);
    var u := TrimStart(t);
    if u != [] {
      var v := u + [c];
      assert v[|v| - 1] == c && v[..|v| - 1] == u;
    }
  }

  /** `s.startsWith(p)`. */
  predicate StartsWith(s: string, p: string) {
    p <= s
  }

  /** A prefix `p` free of `c` that a string `h + [c] + rest` starts with is
      already a prefix of `h`. */
  lemma StartsWithBefore(h: string, c: char, rest: string, p: string)
    requires c !in p
    ensures StartsWith(h + [c] + rest, p) ==> StartsWith(h, p)
  {
    var t := h + [c] + rest;
    assert t[|h|] == c;
    assert forall i :: 0 <= i < |h| ==> t[i] == h[i];
  }

  /** `s.replace(/^p/, "")` for a regular expression that is the literal `p`:
      removes one leading occurrence of `p` when there is one. */
  function StripPrefix(s: string, p: string): (r: string)
    ensures StartsWith(s, p) ==> p + r == s
    ensures !StartsWith(s, p) ==> r == s
  {
    if StartsWith(s, p) then s[|p|..] else s
  }

  /** Removing a prefix keeps a string free of upper-case letters. */
  lemma NoUpperStripPrefix(s: string, p: string)
    requires NoUpper(s)
    ensures NoUpper(StripPrefix(s, p))
  {
    var r := StripPrefix(s, p);
    NoUpperSlice(s, |s| - |r|, |s|);
    assert r == s[|s| - |r|..|s|];
  }

  /** `s.split(sep)` for a one-character separator: the runs of characters
      other than `sep`, in order, one more than there are separators. */
  function Split(s: string, sep: char): (parts: seq<string>)
    ensures |parts| >= 1
    ensures forall k :: 0 <= k < |parts| ==> sep !in parts[k]
    decreases |s|
  {
    if s == [] then [""]
    else
      var rest := Split(s[1..], sep);
      if s[0] == sep then [""] + rest
      else [[s[0]] + rest[0]] + rest[1..]
  }

  /** The first part of a split is a prefix of the string that stops at the
      first separator or at the end; there is one part exactly when the
      separator does not occur. */
  lemma {:induction false} SplitFirstSpec(s: string, sep: char)
    ensures Split(s, sep)[0] <= s
    ensures |Split(s, sep)[0]| < |s| ==> s[|Split(s, sep)[0]|] == sep
    ensures |Split(s, sep)| == 1 <==> sep !in s
    decreases |s|
  {
    if s != [] {
      SplitFirstSpec(s[1..], sep);
      assert s == [s[0]] + s[1..];
    }
  }

  /** The first part of a split is the text before the first separator. */
  lemma SplitFirst(s: string, sep: char, k: int)
    requires 0 <= k <= |s| && sep !in s[..k] && (k < |s| ==> s[k] == sep)
    ensures Split(s, sep)[0] == s[..k]
  {
    SplitFirstSpec(s, sep);
    var p := Split(s, sep)[0];
    assert forall i :: 0 <= i < k ==> s[i] != sep by {
      forall i | 0 <= i < k ensures s[i] != sep {
        assert s[..k][i] == s[i];
      }
    }
    assert forall i :: 0 <= i < |p| ==> p[i] == s[i];
  }

  /** A string without the separator splits into itself alone. */
  lemma SplitNoSeparator(s: string, sep: char)
    requires sep !in s
    ensures Split(s, sep) == [s]
  {
    SplitFirstSpec(s, sep);
    SplitFirst(s, sep, |s|);
    assert s[..|s|] == s;
  }

  /** `parts.join(sep)`: the inverse of `Split`. */
  function Join(parts: seq<string>, sep: char): string
    decreases |parts|
  {
    if |parts| == 0 then ""
    else if |parts| == 1 then parts[0]
    else parts[0] + [sep] + Join(parts[1..], sep)
  }

  /** Joining the parts of a split with the same separator gives back the
      original string: with `Split`'s contract (no part holds the separator)
      this pins the parts down. */
  lemma {:induction false} JoinSplit(s: string, sep: char)
    ensures Join(Split(s, sep), sep) == s
    decreases |s|
  {
    if s != [] {
      var rest := Split(s[1..], sep);
      JoinSplit(s[1..], sep);
      if s[0] == sep {
        assert Split(s, sep) == [""] + rest;
        assert ([""] + rest)[1..] == rest;
        assert s == [sep] + s[1..];
      } else {
        var parts := [[s[0]] + rest[0]] + rest[1..];
        assert Split(s, sep) == parts;
        if |rest| == 1 {
          assert s == [s[0]] + s[1..];
        } else {
          assert parts[1..] == rest[1..];
          assert s == [s[0]] + s[1..];
        }
      }
    }
  }

  /** Splitting a string that starts with a separator-free word followed by
      the separator yields that word, then the parts of the remainder. */
  lemma {:induction false} SplitAfterWord(w: string, t: string, sep: char)
    requires sep !in w
    ensures Split(w + [sep] + t, sep) == [w] + Split(t, sep)
    decreases |w|
  {
    var s := w + [sep] + t;
    if w == [] {
      assert s[1..] == t;
    } else {
      assert s[0] == w[0];
      assert s[1..] == w[1..] + [sep] + t;
      SplitAfterWord(w[1..], t, sep);
      assert [w[0]] + w[1..] == w;
    }
  }
}
