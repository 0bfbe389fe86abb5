/** The JavaScript string operations the pipeline relies on: `trim`,
    `split` on one character, `join`, `toLowerCase`, `replace(/c/g, '')` and
    the decimal rendering of a count inside a template literal. */
module Text {
  import Seqs

  /** ECMAScript WhiteSpace and LineTerminator code points: exactly the
      characters `String.prototype.trim` removes. */
  predicate IsSpace(c: char)
  {
    c == ' ' || c == '\t' || c == '\n' || c == '\r' || c == '\U{B}' || c == '\U{C}'
    || c == '\U{A0}' || c == '\U{1680}' || ('\U{2000}' <= c <= '\U{200A}')
    || c == '\U{2028}' || c == '\U{2029}' || c == '\U{202F}' || c == '\U{205F}'
    || c == '\U{3000}' || c == '\U{FEFF}'
  }

  /** True of a string made only of whitespace (the empty string included);
      JavaScript's `s.trim()` is falsy exactly for these. */
  predicate IsBlank(s: string)
  {
    forall i :: 0 <= i < |s| ==> IsSpace(s[i])
  }

  /** A string with no whitespace at either end, as `trim` leaves it. */
  predicate IsTrimmed(s: string)
  {
    |s| > 0 ==> !IsSpace(s[0]) && !IsSpace(s[|s| - 1])
  }

  function TrimStart(s: string): (r: string)
    ensures |r| <= |s| && r == s[|s| - |r|..]
    ensures IsBlank(s[..|s| - |r|])
    ensures |r| > 0 ==> !IsSpace(r[0])
  {
    if |s| > 0 && IsSpace(s[0]) then TrimStart(s[1..]) else s
  }

  function TrimEnd(s: string): (r: string)
    ensures |r| <= |s| && r == s[..|r|]
    ensures IsBlank(s[|r|..])
    ensures |r| > 0 ==> !IsSpace(r[|r| - 1])
  {
    if |s| > 0 && IsSpace(s[|s| - 1]) then TrimEnd(s[..|s| - 1]) else s
  }

  /** `s.trim()`: the string without its leading and trailing whitespace;
      empty exactly when `s` is blank. `TrimUnique` shows which slice it is. */
  function Trim(s: string): (r: string)
    ensures |r| <= |s|
    ensures IsTrimmed(r)
    ensures r == "" <==> IsBlank(s)
  {
    var t := TrimStart(s);
    BlankAppend(s[..|s| - |t|], t);
    assert s == s[..|s| - |t|] + t;
    TrimEnd(t)
  }

  lemma BlankAppend(a: string, b: string)
    requires IsBlank(a)
    ensures IsBlank(a + b) <==> IsBlank(b)
  {
    if IsBlank(b) {
      forall k | 0 <= k < |a + b| ensures IsSpace((a + b)[k]) {
        if k >= |a| { assert (a + b)[k] == b[k - |a|]; }
      }
    }
    if IsBlank(a + b) {
      forall k | 0 <= k < |b| ensures IsSpace(b[k]) {
        assert (a + b)[|a| + k] == b[k];
      }
    }
  }

  lemma {:induction false} TrimStartFrame(a: string, x: string)
    requires IsBlank(a)
    requires |x| == 0 || !IsSpace(x[0])
    ensures TrimStart(a + x) == x
  {
    if |a| == 0 {
      assert a + x == x;
    } else {
      assert (a + x)[1..] == a[1..] + x;
      assert IsSpace(a[0]);
      TrimStartFrame(a[1..], x);
    }
  }

  lemma {:induction false} TrimEndFrame(x: string, b: string)
    requires IsBlank(b)
    requires |x| == 0 || !IsSpace(x[|x| - 1])
    ensures TrimEnd(x + b) == x
  {
    if |b| == 0 {
      assert x + b == x;
    } else {
      assert (x + b)[..|x + b| - 1] == x + b[..|b| - 1];
      assert IsSpace(b[|b| - 1]);
      TrimEndFrame(x, b[..|b| - 1]);
    }
  }

  /** `trim` is determined by its characterisation: a trimmed core framed by
      two blank runs is what `trim` returns. */
  lemma TrimUnique(a: string, m: string, b: string)
    requires IsBlank(a) && IsBlank(b) && IsTrimmed(m)
    ensures Trim(a + m + b) == m
  {
    if m == "" {
      assert a + m + b == a + b + "";
      BlankAppend(a, b);
      TrimStartFrame(a + b, "");
      assert TrimStart(a + m + b) == "";
    } else {
      assert a + m + b == a + (m + b);
      assert (m + b)[0] == m[0];
      TrimStartFrame(a, m + b);
      TrimEndFrame(m, b);
    }
  }

  /** `trim` returns a slice, so it adds no character. */
  lemma TrimSlice(s: string)
    ensures forall c :: c in Trim(s) ==> c in s
  {
    var i := |TrimStart(s)|;
    assert TrimStart(s) == s[|s| - i..];
    assert Trim(s) == TrimEnd(TrimStart(s));
    assert TrimEnd(TrimStart(s)) == TrimStart(s)[..|Trim(s)|];
  }

  /** Trimming twice is trimming once. */
  lemma TrimIdempotent(s: string)
    ensures Trim(Trim(s)) == Trim(s)
  {
    TrimUnique("", Trim(s), "");
    assert "" + Trim(s) + "" == Trim(s);
  }

  /** The number of occurrences of `c` in `s`. */
  function Occurrences(s: string, c: char): nat
  {
    if |s| == 0 then 0 else (if s[0] == c then 1 else 0) + Occurrences(s[1..], c)
  }

  /** `s.split(sep)` for a one-character separator: the maximal
      separator-free pieces between separators. */
  function Split(s: string, sep: char): (r: seq<string>)
    ensures |r| == 1 + Occurrences(s, sep)
    ensures forall i :: 0 <= i < |r| ==> sep !in r[i]
  {
    if |s| == 0 then [""]
    else
      var rest := Split(s[1..], sep);
      if s[0] == sep then [""] + rest
      else [[s[0]] + rest[0]] + rest[1..]
  }

  /** `parts.join(sep)`. */
  function Join(parts: seq<string>, sep: char): string
  {
    if |parts| == 0 then ""
    else if |parts| == 1 then parts[0]
    else parts[0] + [sep] + Join(parts[1..], sep)
  }

  /** Joining the pieces of a split restores the original string. */
  lemma {:induction false} JoinSplit(s: string, sep: char)
    ensures Join(Split(s, sep), sep) == s
  {
    if |s| > 0 {
      var rest := Split(s[1..], sep);
      JoinSplit(s[1..], sep);
      if s[0] == sep {
        assert ([""] + rest)[1..] == rest;
      } else {
        var r := [[s[0]] + rest[0]] + rest[1..];
        assert r[1..] == rest[1..];
        if |rest| > 1 {
          assert Join(rest, sep) == rest[0] + [sep] + Join(rest[1..], sep);
        }
      }
    }
  }

  /** Splitting a string whose first piece `w` is separator-free. */
  lemma {:induction false} SplitPrefix(w: string, t: string, sep: char)
    requires sep !in w
    ensures Split(w + t, sep) == [w + Split(t, sep)[0]] + Split(t, sep)[1..]
  {
    if |w| > 0 {
      assert (w + t)[1..] == w[1..] + t;
      assert (w + t)[0] == w[0];
      SplitPrefix(w[1..], t, sep);
      assert [w[0]] + (w[1..] + Split(t, sep)[0]) == w + Split(t, sep)[0];
    } else {
      var r := Split(t, sep);
      assert w + t == t;
      assert w + r[0] == r[0];
      assert r == [r[0]] + r[1..];
    }
  }

  /** Splitting a join of separator-free pieces gives the pieces back. */
  lemma {:induction false} SplitJoin(parts: seq<string>, sep: char)
    requires |parts| >= 1
    requires forall i :: 0 <= i < |parts| ==> sep !in parts[i]
    ensures Split(Join(parts, sep), sep) == parts
  {
    if |parts| == 1 {
      SplitPrefix(parts[0], "", sep);
      assert parts[0] + "" == parts[0];
      assert parts == [parts[0]];
    } else {
      var tail := Join(parts[1..], sep);
      SplitJoin(parts[1..], sep);
      SplitPrefix(parts[0], [sep] + tail, sep);
      assert parts[0] + [sep] + tail == parts[0] + ([sep] + tail);
      assert ([sep] + tail)[1..] == tail;
      assert Split([sep] + tail, sep) == [""] + parts[1..];
      assert parts[0] + "" == parts[0];
      assert parts == [parts[0]] + parts[1..];
    }
  }

  /** ASCII `toLowerCase`. */
  function LowerChar(c: char): char
  {
    if 'A' <= c <= 'Z' then (c as int + 32) as char else c
  }

  /** `s.toLowerCase()` on ASCII letters; other characters are kept. */
  function ToLower(s: string): (r: string)
    ensures |r| == |s|
    ensures forall i :: 0 <= i < |s| ==> r[i] == LowerChar(s[i])
  {
    if |s| == 0 then "" else [LowerChar(s[0])] + ToLower(s[1..])
  }

  /** `s.replace(/c/g, '')`: every occurrence of `c` removed, all other
      characters kept in order. */
  function RemoveAll(s: string, c: char): (r: string)
    ensures c !in r
    ensures |r| == |s| - Occurrences(s, c)
  {
    if |s| == 0 then ""
    else if s[0] == c then RemoveAll(s[1..], c)
    else [s[0]] + RemoveAll(s[1..], c)
  }

  /** Removal distributes over concatenation, so every kept character stays
      in its place relative to the others. */
  lemma {:induction false} RemoveAllAppend(a: string, b: string, c: char)
    ensures RemoveAll(a + b, c) == RemoveAll(a, c) + RemoveAll(b, c)
  {
    if |a| > 0 {
      assert (a + b)[1..] == a[1..] + b;
      RemoveAllAppend(a[1..], b, c);
    } else {
      assert a + b == b;
    }
  }

  /** A single character is dropped exactly when it is `c`. */
  lemma RemoveAllOne(x: char, c: char)
    ensures RemoveAll([x], c) == if x == c then "" else [x]
  {
    assert [x][1..] == "";
  }

  /** The test "is not `c`". */
  function Other(c: char): char -> bool
  {
    x => x != c
  }

  /** Removal is the `filter` keeping the characters other than `c`, in
      order: an independent definition of the same string. */
  lemma {:induction false} RemoveAllIsFilter(s: string, c: char)
    ensures RemoveAll(s, c) == Seqs.Filter(s, Other(c))
  {
    if |s| > 0 {
      var init, last := s[..|s| - 1], s[|s| - 1];
      assert s == init + [last];
      RemoveAllIsFilter(init, c);
      RemoveAllAppend(init, [last], c);
      RemoveAllOne(last, c);
    }
  }

  /** Removing a character that does not occur changes nothing. */
  lemma {:induction false} RemoveAbsent(s: string, c: char)
    requires c !in s
    ensures RemoveAll(s, c) == s
  {
    if |s| > 0 {
      assert c !in s[1..];
      RemoveAbsent(s[1..], c);
    }
  }

  function DigitChar(d: nat): char
    requires d < 10
  {
    ('0' as int + d) as char
  }

  /** The decimal numeral `${n}` of a count. */
  function NatToString(n: nat): (r: string)
    ensures |r| >= 1
    ensures forall i :: 0 <= i < |r| ==> '0' <= r[i] <= '9'
    ensures |r| > 1 ==> r[0] != '0'
  {
    if n < 10 then [DigitChar(n)] else NatToString(n / 10) + [DigitChar(n % 10)]
  }

  /** The value of a string of decimal digits. */
  function DigitsValue(s: string): nat
    requires forall i :: 0 <= i < |s| ==> '0' <= s[i] <= '9'
  {
    if |s| == 0 then 0
    else DigitsValue(s[..|s| - 1]) * 10 + (s[|s| - 1] as int - '0' as int)
  }

  /** The numeral reads back as the number it renders. */
  lemma {:induction false} NatToStringRoundTrip(n: nat)
    ensures DigitsValue(NatToString(n)) == n
  {
    if n >= 10 {
      NatToStringRoundTrip(n / 10);
      var s := NatToString(n);
      assert s[..|s| - 1] == NatToString(n / 10);
    }
  }
}
