/**
 * The handful of Python string operations the dose engine relies on, over `seq<char>`:
 * `str.isspace`, `strip()`, `split(sep)`, `split()`, `" ".join(...)`, `replace`, slicing
 * with negative bounds, `int()` on a decimal literal and the ASCII decode check.
 */
module Text {
  import opened Wrappers

  /** Python's `str.isspace` for one character. */
  predicate IsSpace(c: char)
  {
    c == ' ' || ('\t' <= c <= '\r') || ('\U{1C}' <= c <= '\U{1F}') || (c >= '\U{85}' && WideSpace(c))
  }

  /** The whitespace characters beyond ASCII. */
  predicate WideSpace(c: char)
  {
    c == '\U{85}' || c == '\U{A0}' || c == '\U{1680}' || ('\U{2000}' <= c <= '\U{200A}')
    || c == '\U{2028}' || c == '\U{2029}' || c == '\U{202F}' || c == '\U{205F}' || c == '\U{3000}'
  }

  predicate NoSpace(w: string)
  {
    forall i | 0 <= i < |w| :: !IsSpace(w[i])
  }

  /** A field produced by `split()`: non-empty and free of whitespace. */
  predicate Word(w: string)
  {
    |w| > 0 && NoSpace(w)
  }

  predicate IsAscii(s: string)
  {
    forall i | 0 <= i < |s| :: s[i] < '\U{80}'
  }

  // ---------------------------------------------------------------- strip()

  function StripLeft(s: string): string
  {
    if |s| > 0 && IsSpace(s[0]) then StripLeft(s[1..]) else s
  }

  function StripRight(s: string): string
  {
    if |s| > 0 && IsSpace(s[|s| - 1]) then StripRight(s[..|s| - 1]) else s
  }

  /** `lstrip()` removes exactly the leading whitespace: a suffix remains, starting with non-space. */
  lemma {:induction false} StripLeftSpec(s: string)
    ensures var r := StripLeft(s);
      && |r| <= |s| && r == s[|s| - |r|..]
      && (forall i | 0 <= i < |s| - |r| :: IsSpace(s[i]))
      && (|r| > 0 ==> !IsSpace(r[0]))
  {
    if |s| > 0 && IsSpace(s[0]) {
      StripLeftSpec(s[1..]);
    }
  }

  /** `rstrip()` removes exactly the trailing whitespace: a prefix remains, ending with non-space. */
  lemma {:induction false} StripRightSpec(s: string)
    ensures var r := StripRight(s);
      && |r| <= |s| && r == s[..|r|]
      && (forall i | |r| <= i < |s| :: IsSpace(s[i]))
      && (|r| > 0 ==> !IsSpace(r[|r| - 1]))
  {
    if |s| > 0 && IsSpace(s[|s| - 1]) {
      StripRightSpec(s[..|s| - 1]);
    }
  }

  /** `s.strip()`: the part of s between its leading and its trailing whitespace. */
  function Strip(s: string): string
  {
    StripRight(StripLeft(s))
  }

  /**
   * The stripped string is the slice of s that starts after the leading whitespace; only
   * whitespace lies outside it and none at its ends.
   */
  lemma StripSpec(s: string)
    ensures var r, a := Strip(s), |s| - |StripLeft(s)|;
      && 0 <= a <= a + |r| <= |s| && r == s[a..a + |r|]
      && (forall i | 0 <= i < a :: IsSpace(s[i]))
      && (forall i | a + |r| <= i < |s| :: IsSpace(s[i]))
    ensures var r := Strip(s); |r| == 0 || (!IsSpace(r[0]) && !IsSpace(r[|r| - 1]))
  {
    var l := StripLeft(s);
    StripLeftSpec(s);
    StripRightSpec(l);
    var r := Strip(s);
    var a := |s| - |l|;
    assert r == s[a..a + |r|];
    if |r| > 0 {
      assert r[0] == l[0];
    }
  }

  /** A string without whitespace at its ends is its own strip. */
  lemma StripKeeps(s: string)
    requires |s| == 0 || (!IsSpace(s[0]) && !IsSpace(s[|s| - 1]))
    ensures Strip(s) == s
  {
    assert StripLeft(s) == s;
  }

  // ---------------------------------------------------------------- split(sep) and its join

  /** `s.split(sep)` for a one-character separator: empty fields are kept. */
  function SplitOn(s: string, sep: char): (parts: seq<string>)
    ensures |parts| >= 1
  {
    if |s| == 0 then [""]
    else
      var rest := SplitOn(s[1..], sep);
      if s[0] == sep then [""] + rest else [[s[0]] + rest[0]] + rest[1..]
  }

  /** `sep.join(parts)`. */
  function JoinWith(sep: char, parts: seq<string>): string
  {
    if |parts| == 0 then ""
    else if |parts| == 1 then parts[0]
    else parts[0] + [sep] + JoinWith(sep, parts[1..])
  }

  /** No field of `split(sep)` holds the separator. */
  lemma {:induction false} SplitOnFields(s: string, sep: char)
    ensures forall k | 0 <= k < |SplitOn(s, sep)| :: sep !in SplitOn(s, sep)[k]
  {
    if |s| > 0 {
      SplitOnFields(s[1..], sep);
      var rest := SplitOn(s[1..], sep);
      if s[0] != sep {
        assert sep !in [s[0]] + rest[0];
      }
    }
  }

  /** Joining the fields of `split(sep)` with sep gives back the string. */
  lemma {:induction false} SplitOnJoin(s: string, sep: char)
    ensures JoinWith(sep, SplitOn(s, sep)) == s
  {
    if |s| > 0 {
      var rest := SplitOn(s[1..], sep);
      SplitOnJoin(s[1..], sep);
      if s[0] == sep {
        assert SplitOn(s, sep) == [""] + rest;
        assert ([""] + rest)[1..] == rest;
      } else {
        var parts := [[s[0]] + rest[0]] + rest[1..];
        if |rest| == 1 {
          assert JoinWith(sep, parts) == [s[0]] + rest[0];
        } else {
          assert parts[1..] == rest[1..];
          assert JoinWith(sep, rest) == rest[0] + [sep] + JoinWith(sep, rest[1..]);
        }
      }
    }
  }

  /** The first field of `s.split(sep)`: the text before the first separator. */
  function FirstField(s: string, sep: char): (r: string)
    ensures sep !in r
    ensures r == s || (|r| < |s| && s[..|r| + 1] == r + [sep])
  {
    SplitOnFirst(s, sep);
    SplitOnFields(s, sep);
    SplitOn(s, sep)[0]
  }

  /** The last field of `s.split(sep)`: the text after the last separator. */
  function LastField(s: string, sep: char): (r: string)
    ensures sep !in r
    ensures r == s || (|r| < |s| && s[|s| - |r| - 1..] == [sep] + r)
  {
    SplitOnLast(s, sep);
    SplitOnFields(s, sep);
    var parts := SplitOn(s, sep);
    parts[|parts| - 1]
  }

  lemma {:induction false} SplitOnFirst(s: string, sep: char)
    ensures var r := SplitOn(s, sep)[0];
      r == s || (|r| < |s| && s[..|r| + 1] == r + [sep])
  {
    if |s| > 0 && s[0] != sep {
      SplitOnFirst(s[1..], sep);
    }
  }

  lemma {:induction false} SplitOnLast(s: string, sep: char)
    ensures var parts := SplitOn(s, sep); var r := parts[|parts| - 1];
      && (|parts| == 1 ==> r == s)
      && (|parts| > 1 ==> |r| < |s| && s[|s| - |r| - 1..] == [sep] + r)
  {
    if |s| > 0 {
      var rest := SplitOn(s[1..], sep);
      SplitOnLast(s[1..], sep);
      var r := rest[|rest| - 1];
      var parts := SplitOn(s, sep);
      assert parts[|parts| - 1] == (if |rest| == 1 && s[0] != sep then [s[0]] + r else r);
      if |rest| > 1 {
        assert s[1..][|s| - 1 - |r| - 1..] == s[|s| - |r| - 1..];
      }
    }
  }

  // ---------------------------------------------------------------- split() and " ".join

  /** The length of the run of non-whitespace characters that starts s. */
  function WordLen(s: string): (n: nat)
    ensures n <= |s|
    ensures NoSpace(s[..n])
    ensures n < |s| ==> IsSpace(s[n])
  {
    if |s| == 0 || IsSpace(s[0]) then 0 else 1 + WordLen(s[1..])
  }

  /** `s.split()`: the maximal runs of non-whitespace characters, in order. */
  function SplitWs(s: string): (words: seq<string>)
    ensures forall k | 0 <= k < |words| :: Word(words[k])
    decreases |s|
  {
    if |s| == 0 then []
    else if IsSpace(s[0]) then SplitWs(s[1..])
    else
      var n := WordLen(s);
      [s[..n]] + SplitWs(s[n..])
  }

  /** `" ".join(words)`. */
  function JoinSpace(words: seq<string>): string
  {
    if |words| == 0 then ""
    else if |words| == 1 then words[0]
    else words[0] + " " + JoinSpace(words[1..])
  }

  /** `" ".join(s.split())`: the whitespace normalisation of flight numbers and airports. */
  function NormalizeSpace(s: string): string
  {
    JoinSpace(SplitWs(s))
  }

  /** The characters of s that are not whitespace, in order. */
  function NonSpace(s: string): string
  {
    if |s| == 0 then "" else (if IsSpace(s[0]) then "" else [s[0]]) + NonSpace(s[1..])
  }

  function Concat(words: seq<string>): string
  {
    if |words| == 0 then "" else words[0] + Concat(words[1..])
  }

  /**
   * Normalised text: every whitespace character is a plain space with a non-whitespace
   * character on each side, so there is no leading, trailing or doubled space.
   */
  predicate Normalized(r: string)
  {
    forall i | 0 <= i < |r| && IsSpace(r[i]) :: r[i] == ' ' && 0 < i && i + 1 < |r| && !IsSpace(r[i + 1])
  }

  lemma {:induction false} NonSpaceAppend(a: string, b: string)
    ensures NonSpace(a + b) == NonSpace(a) + NonSpace(b)
  {
    if |a| > 0 {
      assert (a + b)[0] == a[0];
      assert (a + b)[1..] == a[1..] + b;
      NonSpaceAppend(a[1..], b);
      var h := if IsSpace(a[0]) then "" else [a[0]];
      assert NonSpace(a + b) == h + (NonSpace(a[1..]) + NonSpace(b));
      assert h + (NonSpace(a[1..]) + NonSpace(b)) == (h + NonSpace(a[1..])) + NonSpace(b);
    } else {
      assert a + b == b;
    }
  }

  lemma {:induction false} NonSpaceOfWord(w: string)
    requires NoSpace(w)
    ensures NonSpace(w) == w
  {
    if |w| > 0 {
      NonSpaceOfWord(w[1..]);
    }
  }

  lemma {:induction false} NonSpaceOfSpaces(s: string)
    requires forall i | 0 <= i < |s| :: IsSpace(s[i])
    ensures NonSpace(s) == ""
  {
    if |s| > 0 {
      NonSpaceOfSpaces(s[1..]);
    }
  }

  /** `split()` keeps every non-whitespace character and nothing else. */
  lemma {:induction false} SplitWsKeepsText(s: string)
    ensures Concat(SplitWs(s)) == NonSpace(s)
    decreases |s|
  {
    if |s| > 0 {
      if IsSpace(s[0]) {
        SplitWsKeepsText(s[1..]);
      } else {
        var n := WordLen(s);
        SplitWsKeepsText(s[n..]);
        assert s == s[..n] + s[n..];
        NonSpaceAppend(s[..n], s[n..]);
        NonSpaceOfWord(s[..n]);
      }
    }
  }

  lemma {:induction false} JoinSpaceText(words: seq<string>)
    requires forall k | 0 <= k < |words| :: Word(words[k])
    ensures NonSpace(JoinSpace(words)) == Concat(words)
  {
    if |words| == 1 {
      NonSpaceOfWord(words[0]);
    } else if |words| > 1 {
      JoinSpaceText(words[1..]);
      NonSpaceAppend(words[0] + " ", JoinSpace(words[1..]));
      NonSpaceAppend(words[0], " ");
      NonSpaceOfWord(words[0]);
      NonSpaceOfSpaces(" ");
    }
  }

  lemma {:induction false} JoinSpaceNormalized(words: seq<string>)
    requires forall k | 0 <= k < |words| :: Word(words[k])
    ensures Normalized(JoinSpace(words))
    ensures |words| > 0 ==> |JoinSpace(words)| > 0 && !IsSpace(JoinSpace(words)[0])
  {
    if |words| > 1 {
      var w, rest := words[0], JoinSpace(words[1..]);
      JoinSpaceNormalized(words[1..]);
      var r := JoinSpace(words);
      assert r == w + " " + rest;
      forall i | 0 <= i < |r| && IsSpace(r[i])
        ensures r[i] == ' ' && 0 < i && i + 1 < |r| && !IsSpace(r[i + 1])
      {
        if i > |w| {
          assert r[i] == rest[i - |w| - 1];
        }
      }
    }
  }

  /** The normalised text has no leading, trailing or doubled space and loses no character. */
  lemma NormalizeSpaceProperties(s: string)
    ensures Normalized(NormalizeSpace(s))
    ensures NonSpace(NormalizeSpace(s)) == NonSpace(s)
  {
    JoinSpaceNormalized(SplitWs(s));
    JoinSpaceText(SplitWs(s));
    SplitWsKeepsText(s);
  }

  lemma {:induction false} WordLenOfWord(w: string, tail: string)
    requires Word(w)
    requires |tail| == 0 || IsSpace(tail[0])
    ensures WordLen(w + tail) == |w|
  {
    if |w| > 1 {
      assert (w + tail)[1..] == w[1..] + tail;
      WordLenOfWord(w[1..], tail);
    }
  }

  /** Splitting a space-joined list of words gives the words back. */
  lemma {:induction false} SplitWsJoinSpace(words: seq<string>)
    requires forall k | 0 <= k < |words| :: Word(words[k])
    ensures SplitWs(JoinSpace(words)) == words
  {
    if |words| == 1 {
      var w := words[0];
      WordLenOfWord(w, "");
      assert w + "" == w;
      assert w[..|w|] == w && w[|w|..] == "";
    } else if |words| > 1 {
      var w, rest := words[0], JoinSpace(words[1..]);
      var s := JoinSpace(words);
      assert s == w + (" " + rest);
      WordLenOfWord(w, " " + rest);
      assert s[..|w|] == w;
      assert s[|w|..] == " " + rest;
      assert (" " + rest)[1..] == rest;
      SplitWsJoinSpace(words[1..]);
    }
  }

  /** Normalising twice is normalising once. */
  lemma NormalizeSpaceIdempotent(s: string)
    ensures NormalizeSpace(NormalizeSpace(s)) == NormalizeSpace(s)
  {
    SplitWsJoinSpace(SplitWs(s));
  }

  // ---------------------------------------------------------------- replace, slicing, int()

  /** `s.replace(a, b)` for single characters. */
  function ReplaceChar(s: string, a: char, b: char): (r: string)
    ensures |r| == |s|
    ensures forall i | 0 <= i < |s| :: r[i] == (if s[i] == a then b else s[i])
  {
    if |s| == 0 then "" else [if s[0] == a then b else s[0]] + ReplaceChar(s[1..], a, b)
  }

  /** A Python slice bound: negative counts from the end; the result is clamped to [0, n]. */
  function PyIndex(k: int, n: nat): (r: nat)
    ensures r <= n
  {
    if k < 0 then (if k + n < 0 then 0 else k + n) else if k > n then n else k
  }

  /** `s[i:j]`. */
  function PySlice(s: string, i: int, j: int): string
  {
    var a, b := PyIndex(i, |s|), PyIndex(j, |s|);
    if a < b then s[a..b] else ""
  }

  /** `s[i:]`. */
  function PySliceFrom(s: string, i: int): string
  {
    s[PyIndex(i, |s|)..]
  }

  predicate IsDigit(c: char)
  {
    '0' <= c <= '9'
  }

  /** The value of a non-empty run of decimal digits, or None when s is empty or holds a non-digit. */
  function Digits(s: string): Option<nat>
  {
    if |s| == 0 || !IsDigit(s[|s| - 1]) then None
    else
      var d := s[|s| - 1] as int - '0' as int;
      if |s| == 1 then Some(d)
      else
        var p := Digits(s[..|s| - 1]);
        if p.None? then None else Some(p.value * 10 + d)
  }

  /** `int(s)` on a decimal literal: surrounding whitespace, an optional sign, then digits. */
  function ParseInt(s: string): Option<int>
  {
    var t := Strip(s);
    if |t| > 0 && (t[0] == '-' || t[0] == '+') then
      var v := Digits(t[1..]);
      if v.None? then None else Some(if t[0] == '-' then -(v.value as int) else v.value)
    else
      var v := Digits(t);
      if v.None? then None else Some(v.value)
  }

  /** `Digits` reads exactly the non-empty strings of digits. */
  lemma {:induction false} DigitsSome(s: string)
    ensures Digits(s).Some? <==> |s| > 0 && forall i | 0 <= i < |s| :: IsDigit(s[i])
  {
    if |s| > 1 && IsDigit(s[|s| - 1]) {
      DigitsSome(s[..|s| - 1]);
      assert forall i | 0 <= i < |s| - 1 :: s[..|s| - 1][i] == s[i];
    }
  }

  /** Decimal digits of a natural number, most significant first. */
  function ShowNat(n: nat): (s: string)
    ensures |s| > 0 && !IsSpace(s[0]) && !IsSpace(s[|s| - 1])
    ensures forall i | 0 <= i < |s| :: IsDigit(s[i])
  {
    if n < 10 then [('0' as int + n) as char] else ShowNat(n / 10) + [('0' as int + n % 10) as char]
  }

  /** `int()` reads back the decimal digits of a natural number. */
  lemma {:induction false} ParseShowNat(n: nat)
    ensures Digits(ShowNat(n)) == Some(n)
    ensures ParseInt(ShowNat(n)) == Some(n as int)
  {
    var s := ShowNat(n);
    if n >= 10 {
      ParseShowNat(n / 10);
      assert s[..|s| - 1] == ShowNat(n / 10);
    }
    StripKeeps(s);
  }
}
