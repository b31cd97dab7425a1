/** The few Python string built-ins the calendar script relies on:
    `str.lower`, `str.title`, `str.split` with a one-character separator,
    `int` applied to a string, and the two-digit zero padding of `HH:MM`.
    Letters are the ASCII letters; see README for what that leaves out. */
module Text {
  import opened Outcomes

  predicate IsUpper(c: char) { 'A' <= c <= 'Z' }
  predicate IsLower(c: char) { 'a' <= c <= 'z' }

  /** A cased character in the sense of `str.title`. */
  predicate IsCased(c: char) { IsUpper(c) || IsLower(c) }

  /** The same letter in lower case; anything else unchanged. */
  function ToLower(c: char): (d: char)
    ensures IsCased(d) == IsCased(c) && !IsUpper(d)
    ensures IsUpper(c) ==> d as int - 'a' as int == c as int - 'A' as int
    ensures !IsUpper(c) ==> d == c
  {
    if IsUpper(c) then (c as int + 32) as char else c
  }

  /** The same letter in upper case; anything else unchanged. */
  function ToUpper(c: char): (d: char)
    ensures IsCased(d) == IsCased(c) && !IsLower(d)
    ensures IsLower(c) ==> d as int - 'A' as int == c as int - 'a' as int
    ensures !IsLower(c) ==> d == c
  {
    if IsLower(c) then (c as int - 32) as char else c
  }

  /** `str.lower`: the same length, each letter in lower case, everything
      else unchanged. */
  function Lower(s: string): (r: string)
    ensures |r| == |s|
    ensures forall i | 0 <= i < |s| :: !IsUpper(r[i]) && IsCased(r[i]) == IsCased(s[i])
    ensures forall i | 0 <= i < |s| && IsUpper(s[i]) :: r[i] as int - 'a' as int == s[i] as int - 'A' as int
    ensures forall i | 0 <= i < |s| && !IsUpper(s[i]) :: r[i] == s[i]
  {
    seq(|s|, i requires 0 <= i < |s| => ToLower(s[i]))
  }

  /** Lower-casing twice is lower-casing once. */
  lemma LowerIdempotent(s: string)
    ensures Lower(Lower(s)) == Lower(s)
  {
  }

  /** A string without upper-case letters is its own lower case. */
  lemma LowerOfLowerCase(s: string)
    requires forall i | 0 <= i < |s| :: !IsUpper(s[i])
    ensures Lower(s) == s
  {
  }

  // ---------------------------------------------------------------------
  // str.title

  /** `str.title` scanning `s` when the character before it was cased
      (`prevCased`) or not: a cased character is upper-cased at the start of
      a run of cased characters and lower-cased inside one. */
  function TitleFrom(s: string, prevCased: bool): (r: string)
    ensures |r| == |s|
    decreases |s|
  {
    if |s| == 0 then ""
    else
      var c := s[0];
      var d := if !IsCased(c) then c else if prevCased then ToLower(c) else ToUpper(c);
      [d] + TitleFrom(s[1..], IsCased(c))
  }

  /** `str.title`; its character-wise rule is `TitleSpec`. */
  function Title(s: string): (r: string)
    ensures |r| == |s|
  {
    TitleFrom(s, false)
  }

  /** What `str.title` leaves at position `i`, read off `s` alone. */
  function TitleCharAt(s: string, i: nat): char
    requires i < |s|
  {
    if !IsCased(s[i]) then s[i]
    else if i > 0 && IsCased(s[i - 1]) then ToLower(s[i])
    else ToUpper(s[i])
  }

  lemma {:induction false} TitleFromAt(s: string, prevCased: bool, i: nat)
    requires i < |s|
    ensures |TitleFrom(s, prevCased)| == |s|
    ensures TitleFrom(s, prevCased)[i] ==
      if i == 0 && prevCased && IsCased(s[0]) then ToLower(s[0]) else TitleCharAt(s, i)
    decreases |s|
  {
    if |s| > 1 {
      TitleFromAt(s[1..], IsCased(s[0]), if i == 0 then 0 else i - 1);
    }
  }

  /** `str.title` keeps the length and is the character-wise rule
      `TitleCharAt`: upper case at the start of each run of cased
      characters, lower case elsewhere in it, everything else unchanged. */
  lemma TitleSpec(s: string)
    ensures |Title(s)| == |s|
    ensures forall i | 0 <= i < |s| :: Title(s)[i] == TitleCharAt(s, i)
  {
    if |s| > 0 {
      TitleFromAt(s, false, 0);
    }
    forall i | 0 <= i < |s| ensures Title(s)[i] == TitleCharAt(s, i) {
      TitleFromAt(s, false, i);
    }
  }

  /** Title-casing twice is title-casing once. */
  lemma TitleIdempotent(s: string)
    ensures Title(Title(s)) == Title(s)
  {
    TitleSpec(s);
    TitleSpec(Title(s));
  }

  /** Title-casing changes only the case of letters. */
  lemma TitleKeepsLetters(s: string)
    ensures Lower(Title(s)) == Lower(s)
  {
    TitleSpec(s);
  }

  // ---------------------------------------------------------------------
  // str.split with a one-character separator

  /** `s.split(sep)`: the pieces between occurrences of `sep`. */
  function Split(s: string, sep: char): (parts: seq<string>)
    ensures |parts| > 0
    decreases |s|
  {
    if |s| == 0 then [""]
    else
      var rest := Split(s[1..], sep);
      if s[0] == sep then [""] + rest
      else [[s[0]] + rest[0]] + rest[1..]
  }

  /** `sep.join(parts)`. */
  function Join(parts: seq<string>, sep: char): string
    requires |parts| > 0
    decreases |parts|
  {
    if |parts| == 1 then parts[0] else parts[0] + [sep] + Join(parts[1..], sep)
  }

  /** The number of occurrences of `c` in `s`. */
  function Count(s: string, c: char): nat
    decreases |s|
  {
    if |s| == 0 then 0 else (if s[0] == c then 1 else 0) + Count(s[1..], c)
  }

  /** Splitting loses nothing: joining the pieces gives back the string. */
  lemma {:induction false} SplitJoin(s: string, sep: char)
    ensures Join(Split(s, sep), sep) == s
    decreases |s|
  {
    if |s| > 0 {
      SplitJoin(s[1..], sep);
      var rest := Split(s[1..], sep);
      if s[0] == sep {
        assert ([""] + rest)[1..] == rest;
      } else {
        var parts := [[s[0]] + rest[0]] + rest[1..];
        if |rest| > 1 {
          assert parts[1..] == rest[1..];
          assert Join(rest, sep) == rest[0] + [sep] + Join(rest[1..], sep);
        }
      }
    }
  }

  /** No piece contains the separator, and there is one piece more than
      there are separators. */
  lemma {:induction false} SplitPieces(s: string, sep: char)
    ensures |Split(s, sep)| == Count(s, sep) + 1
    ensures forall k | 0 <= k < |Split(s, sep)| :: sep !in Split(s, sep)[k]
    decreases |s|
  {
    if |s| > 0 {
      SplitPieces(s[1..], sep);
      var rest := Split(s[1..], sep);
      if s[0] != sep {
        var parts := Split(s, sep);
        assert parts[0] == [s[0]] + rest[0];
        forall k | 0 <= k < |parts| ensures sep !in parts[k] {
          if k > 0 { assert parts[k] == rest[k]; }
        }
      }
    }
  }

  // ---------------------------------------------------------------------
  // int(str)

  /** The characters `int` skips around its argument: C `isspace` in the
      "C" locale (`Py_ISSPACE`), that is space, tab, line feed, vertical
      tab, form feed and carriage return. */
  predicate IsSpace(c: char)
  {
    c == ' ' || '\t' <= c <= '\r'
  }

  predicate AllSpace(s: string)
  {
    forall i | 0 <= i < |s| :: IsSpace(s[i])
  }

  predicate IsDigit(c: char) { '0' <= c <= '9' }

  function TrimLeft(s: string): string
    decreases |s|
  {
    if |s| > 0 && IsSpace(s[0]) then TrimLeft(s[1..]) else s
  }

  function TrimRight(s: string): string
    decreases |s|
  {
    if |s| > 0 && IsSpace(s[|s| - 1]) then TrimRight(s[..|s| - 1]) else s
  }

  /** The whitespace `int` skips on both sides of its argument. This is not
      `str.strip()`, which also removes the separators `\x1c` to `\x1f`. */
  function Strip(s: string): string
  {
    TrimRight(TrimLeft(s))
  }

  predicate IsDigits(s: string)
  {
    |s| > 0 && forall i | 0 <= i < |s| :: IsDigit(s[i])
  }

  /** The value of a run of decimal digits, most significant first. */
  function DigitsValue(s: string): nat
    requires forall i | 0 <= i < |s| :: IsDigit(s[i])
    decreases |s|
  {
    if |s| == 0 then 0
    else
      assert IsDigit(s[|s| - 1]);
      var d := s[|s| - 1] as int - '0' as int;
      DigitsValue(s[..|s| - 1]) * 10 + d
  }

  /** The most digits `int` converts from a string: the default of
      `sys.int_info.default_max_str_digits`, in force since Python 3.11 and
      the 3.7.14, 3.8.14, 3.9.14 and 3.10.7 security releases. */
  const MaxStrDigits: nat := 4300

  /** `int(s)` for a decimal string: surrounding whitespace, an optional
      sign and one to `MaxStrDigits` digits; `None` where `int` raises
      ValueError. Only a leading minus sign makes the value negative. */
  function ParseInt(s: string): (r: Option<int>)
    ensures r.Some? ==> |Strip(s)| > 0 && IsDigit(Strip(s)[|Strip(s)| - 1])
    ensures r.Some? && r.value < 0 ==> Strip(s)[0] == '-'
  {
    var t := Strip(s);
    if |t| > 0 && (t[0] == '+' || t[0] == '-') then
      if IsDigits(t[1..]) && |t| - 1 <= MaxStrDigits then
        var v: int := DigitsValue(t[1..]);
        Some(if t[0] == '-' then -v else v)
      else None
    else if IsDigits(t) && |t| <= MaxStrDigits then Some(DigitsValue(t))
    else None
  }

  function Digit(d: nat): char
    requires d < 10
  {
    ('0' as int + d) as char
  }

  /** The two-digit zero padding of `n` below 100. The script never pads; this
      only writes the `HH:MM` texts of the round-trip lemmas on times. */
  function Pad2(n: nat): (s: string)
    requires n < 100
  {
    [Digit(n / 10), Digit(n % 10)]
  }

  /** A bare run of digits is read as its own value. */
  lemma ParseIntDigits(t: string)
    requires IsDigits(t) && |t| <= MaxStrDigits
    ensures ParseInt(t) == Some(DigitsValue(t) as int)
  {
    assert TrimLeft(t) == t;
    assert TrimRight(t) == t;
  }

  /** The strings `int` accepts, in four parts: leading whitespace, an
      optional sign, one to `MaxStrDigits` digits and trailing whitespace. */
  predicate IsIntLiteral(lead: string, sign: string, digits: string, trail: string)
  {
    && AllSpace(lead) && AllSpace(trail)
    && (sign == "" || sign == "+" || sign == "-")
    && IsDigits(digits) && |digits| <= MaxStrDigits
  }

  /** The value of such a literal: negative exactly under a minus sign. */
  function LiteralValue(sign: string, digits: string): int
    requires IsDigits(digits)
  {
    if sign == "-" then -(DigitsValue(digits) as int) else DigitsValue(digits)
  }

  /** Leading whitespace in front of a string that does not start with
      whitespace is skipped, and nothing more. */
  lemma {:induction false} TrimLeftSpaces(w: string, t: string)
    requires AllSpace(w) && (|t| == 0 || !IsSpace(t[0]))
    ensures TrimLeft(w + t) == t
    decreases |w|
  {
    if |w| == 0 {
      assert w + t == t;
    } else {
      assert (w + t)[1..] == w[1..] + t;
      TrimLeftSpaces(w[1..], t);
    }
  }

  /** Trailing whitespace behind a string that does not end in whitespace
      is skipped, and nothing more. */
  lemma {:induction false} TrimRightSpaces(t: string, w: string)
    requires AllSpace(w) && (|t| == 0 || !IsSpace(t[|t| - 1]))
    ensures TrimRight(t + w) == t
    decreases |w|
  {
    if |w| == 0 {
      assert t + w == t;
    } else {
      assert (t + w)[..|t + w| - 1] == t + w[..|w| - 1];
      TrimRightSpaces(t, w[..|w| - 1]);
    }
  }

  /** `TrimLeft` drops a run of whitespace from the front and stops at the
      first other character. */
  lemma {:induction false} TrimLeftSuffix(s: string)
    ensures |TrimLeft(s)| <= |s| && TrimLeft(s) == s[|s| - |TrimLeft(s)|..]
    ensures AllSpace(s[..|s| - |TrimLeft(s)|])
    ensures |TrimLeft(s)| == 0 || !IsSpace(TrimLeft(s)[0])
    decreases |s|
  {
    if |s| > 0 && IsSpace(s[0]) {
      TrimLeftSuffix(s[1..]);
      var n := |s| - |TrimLeft(s)|;
      assert s[1..][..n - 1] == s[1..n];
      assert forall i | 0 <= i < n :: s[i] == if i == 0 then s[0] else s[1..][..n - 1][i - 1];
    }
  }

  /** `TrimRight` drops a run of whitespace from the back and stops at the
      last other character. */
  lemma {:induction false} TrimRightPrefix(s: string)
    ensures |TrimRight(s)| <= |s| && TrimRight(s) == s[..|TrimRight(s)|]
    ensures AllSpace(s[|TrimRight(s)|..])
    ensures |TrimRight(s)| == 0 || !IsSpace(TrimRight(s)[|TrimRight(s)| - 1])
    decreases |s|
  {
    if |s| > 0 && IsSpace(s[|s| - 1]) {
      var init := s[..|s| - 1];
      TrimRightPrefix(init);
      var n := |TrimRight(s)|;
      assert init[n..] == s[n..|s| - 1];
      assert forall i | n <= i < |s| :: s[i] == if i == |s| - 1 then s[|s| - 1] else init[n..][i - n];
    }
  }

  /** The information separators `\x1c` to `\x1f` are not whitespace to
      `int`: a digit behind one is refused. */
  lemma SeparatorIsNotSpace(c: char, d: char)
    requires 28 <= c as int <= 31 && IsDigit(d)
    ensures ParseInt([c, d]) == None
  {
    assert TrimLeft([c, d]) == [c, d];
    assert TrimRight([c, d]) == [c, d];
  }

  /** `int` accepts every literal and reads it as its value. */
  lemma ParseIntLiteral(lead: string, sign: string, digits: string, trail: string)
    requires IsIntLiteral(lead, sign, digits, trail)
    ensures ParseInt(lead + sign + digits + trail) == Some(LiteralValue(sign, digits))
  {
    var t := sign + digits;
    assert lead + sign + digits + trail == lead + (t + trail);
    assert t[|t| - 1] == digits[|digits| - 1];
    assert (t + trail)[0] == t[0];
    TrimLeftSpaces(lead, t + trail);
    TrimRightSpaces(t, trail);
    if sign == "" {
      assert t == digits;
    } else {
      assert t[1..] == digits;
    }
  }

  /** A string is its stripped core between two runs of whitespace. */
  lemma StripParts(s: string) returns (lead: string, trail: string)
    ensures AllSpace(lead) && AllSpace(trail) && s == lead + Strip(s) + trail
  {
    var u := TrimLeft(s);
    TrimLeftSuffix(s);
    TrimRightPrefix(u);
    lead, trail := s[..|s| - |u|], u[|TrimRight(u)|..];
    assert s == lead + u;
    assert u == TrimRight(u) + trail;
  }

  /** What `int` accepts once the whitespace is stripped: an optional sign
      and then the digits. */
  lemma SignParts(t: string) returns (sign: string, digits: string)
    requires || (|t| > 0 && (t[0] == '+' || t[0] == '-') && IsDigits(t[1..]) && |t| - 1 <= MaxStrDigits)
             || (IsDigits(t) && |t| <= MaxStrDigits)
    ensures t == sign + digits && (sign == "" || sign == "+" || sign == "-")
    ensures IsDigits(digits) && |digits| <= MaxStrDigits
  {
    if t[0] == '+' || t[0] == '-' {
      sign, digits := t[..1], t[1..];
      assert sign == [t[0]];
    } else {
      sign, digits := "", t;
    }
  }

  /** `int` accepts nothing but literals. */
  lemma ParseIntOnlyLiterals(s: string)
    requires ParseInt(s).Some?
    ensures exists lead, sign, digits, trail | IsIntLiteral(lead, sign, digits, trail) ::
      s == lead + sign + digits + trail && ParseInt(s) == Some(LiteralValue(sign, digits))
  {
    var lead, trail := StripParts(s);
    var sign, digits := SignParts(Strip(s));
    assert s == lead + sign + digits + trail;
    assert IsIntLiteral(lead, sign, digits, trail);
    ParseIntLiteral(lead, sign, digits, trail);
  }

  lemma DigitsOfTwo(s: string)
    requires |s| == 2 && IsDigit(s[0]) && IsDigit(s[1])
    ensures DigitsValue(s) == (s[0] as int - '0' as int) * 10 + (s[1] as int - '0' as int)
  {
    assert s[..1] == [s[0]];
    assert [s[0]][..0] == [];
    assert DigitsValue([s[0]]) == s[0] as int - '0' as int;
  }

  /** `int` reads back a zero-padded two-digit number. */
  lemma ParseIntPad2(n: nat)
    requires n < 100
    ensures ParseInt(Pad2(n)) == Some(n)
  {
    ParseIntDigits(Pad2(n));
    DigitsOfTwo(Pad2(n));
  }

  /** Two digits are the zero padding of their own value. */
  lemma Pad2OfDigits(s: string)
    requires |s| == 2 && IsDigit(s[0]) && IsDigit(s[1])
    ensures DigitsValue(s) < 100 && Pad2(DigitsValue(s)) == s
  {
    DigitsOfTwo(s);
    var hi, lo := s[0] as int - '0' as int, s[1] as int - '0' as int;
    assert (hi * 10 + lo) / 10 == hi && (hi * 10 + lo) % 10 == lo;
  }

  /** A string without the separator is a single piece. */
  lemma {:induction false} SplitWithoutSeparator(s: string, sep: char)
    requires sep !in s
    ensures Split(s, sep) == [s]
    decreases |s|
  {
    if |s| > 0 {
      SplitWithoutSeparator(s[1..], sep);
      assert [s[0]] + s[1..] == s;
    }
  }

  /** Two separator-free strings joined by one separator split back into
      exactly those two. */
  lemma {:induction false} SplitAtSeparator(a: string, b: string, sep: char)
    requires sep !in a && sep !in b
    ensures Split(a + [sep] + b, sep) == [a, b]
    decreases |a|
  {
    var s := a + [sep] + b;
    if |a| == 0 {
      assert s[1..] == b;
      SplitWithoutSeparator(b, sep);
    } else {
      assert s[1..] == a[1..] + [sep] + b;
      SplitAtSeparator(a[1..], b, sep);
      assert [a[0]] + a[1..] == a;
    }
  }
}
