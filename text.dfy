/** The pieces of Python string formatting the receipt uses: `>`/`<`
    alignment in a format spec, `c * n` repetition, `.2f` and `,.2f` of an
    amount given in hundredths, zero-padded date fields, and joining and
    splitting text at newlines. */
module Text {

  import opened Outcomes

  /** `c * n` in Python for a one-character string `c`. */
  function Repeat(c: char, n: nat): (r: string)
    ensures |r| == n
    ensures forall i :: 0 <= i < n ==> r[i] == c
  {
    if n == 0 then "" else Repeat(c, n - 1) + [c]
  }

  function Max(a: int, b: int): int { if a < b then b else a }

  /** `f"{s:>{w}}"`: right-aligned in a field of `w` columns, padded with
      spaces on the left; a value wider than the field is emitted whole. */
  function PadLeft(s: string, w: nat): (r: string)
    ensures |r| == Max(|s|, w)
  {
    if |s| < w then Repeat(' ', w - |s|) + s else s
  }

  /** Right alignment keeps the text whole at the right end of the field,
      with only spaces before it. */
  lemma PadLeftShape(s: string, w: nat)
    ensures PadLeft(s, w)[|PadLeft(s, w)| - |s|..] == s
    ensures forall i :: 0 <= i < |PadLeft(s, w)| - |s| ==> PadLeft(s, w)[i] == ' '
  {
  }

  /** `f"{s:<{w}}"`: left-aligned in a field of `w` columns, padded with
      spaces on the right; never truncates. */
  function PadRight(s: string, w: nat): (r: string)
    ensures |r| == Max(|s|, w)
  {
    if |s| < w then s + Repeat(' ', w - |s|) else s
  }

  /** Left alignment keeps the text whole at the start of the field, with
      only spaces after it. */
  lemma PadRightShape(s: string, w: nat)
    ensures PadRight(s, w)[..|s|] == s
    ensures forall i :: |s| <= i < |PadRight(s, w)| ==> PadRight(s, w)[i] == ' '
  {
  }

  // ----- decimal digits -----

  predicate IsDigit(c: char) { '0' <= c <= '9' }

  function DigitChar(d: nat): char
    requires d < 10
  {
    "0123456789"[d]
  }

  function DigitValue(c: char): nat
    requires IsDigit(c)
  {
    (c as int - '0' as int) as nat
  }

  /** The decimal numeral of `n`, no leading zeros: `str(n)`. */
  function NatToString(n: nat): (r: string)
    ensures |r| >= 1
    ensures forall i :: 0 <= i < |r| ==> IsDigit(r[i])
  {
    if n < 10 then [DigitChar(n)] else NatToString(n / 10) + [DigitChar(n % 10)]
  }

  /** The number a string of decimal digits denotes. */
  function DigitsValue(s: string): nat
    requires forall i :: 0 <= i < |s| ==> IsDigit(s[i])
  {
    if s == [] then 0 else DigitsValue(s[..|s| - 1]) * 10 + DigitValue(s[|s| - 1])
  }

  /** Reading the numeral of `n` back gives `n`, and the numeral has no
      leading zero. */
  lemma {:induction false} NatToStringRoundTrip(n: nat)
    ensures DigitsValue(NatToString(n)) == n
    ensures NatToString(n)[0] == '0' <==> n == 0
  {
    var s := NatToString(n);
    if n >= 10 {
      NatToStringRoundTrip(n / 10);
      assert s[..|s| - 1] == NatToString(n / 10);
      assert s[0] == NatToString(n / 10)[0];
    }
  }

  /** `n` as at least two digits, with a leading zero below 10: `%02d`. */
  function ZeroPad2(n: nat): (r: string)
    ensures |r| >= 2
    ensures forall i :: 0 <= i < |r| ==> IsDigit(r[i])
  {
    if n < 10 then "0" + NatToString(n) else NatToString(n)
  }

  /** The year as `%Y` writes it: at least four digits, zero-padded. */
  function ZeroPad4(n: nat): (r: string)
    ensures |r| >= 4
    ensures forall i :: 0 <= i < |r| ==> IsDigit(r[i])
  {
    var s := NatToString(n);
    if |s| < 4 then Repeat('0', 4 - |s|) + s else s
  }

  /** A digit string with a ',' before every group of three digits counted
      from the right: the thousands separators of the `,` format option. */
  function Group(s: string): (r: string)
    ensures |s| >= 1 ==> |r| >= 1
    decreases |s|
  {
    if |s| <= 3 then s else Group(s[..|s| - 3]) + "," + s[|s| - 3..]
  }

  /** `s` with every `c` taken out. */
  function Without(c: char, s: string): string
  {
    if s == [] then "" else Without(c, s[..|s| - 1]) + (if s[|s| - 1] == c then "" else [s[|s| - 1]])
  }

  lemma {:induction false} WithoutAppend(c: char, a: string, b: string)
    ensures Without(c, a + b) == Without(c, a) + Without(c, b)
    decreases |b|
  {
    if b == [] {
      assert a + b == a;
    } else {
      assert (a + b)[..|a + b| - 1] == a + b[..|b| - 1];
      WithoutAppend(c, a, b[..|b| - 1]);
    }
  }

  lemma {:induction false} WithoutAbsent(c: char, s: string)
    requires c !in s
    ensures Without(c, s) == s
    decreases |s|
  {
    if s != [] {
      assert s == s[..|s| - 1] + [s[|s| - 1]];
      WithoutAbsent(c, s[..|s| - 1]);
    }
  }

  lemma WithoutOnly(c: char)
    ensures Without(c, [c]) == ""
  {
    assert [c][..0] == "";
  }

  lemma AbsentFromSlices(c: char, s: string, k: nat)
    requires c !in s && k <= |s|
    ensures c !in s[..k] && c !in s[k..]
  {
    forall i | 0 <= i < k ensures s[..k][i] != c { assert s[..k][i] == s[i]; }
    forall i | 0 <= i < |s| - k ensures s[k..][i] != c { assert s[k..][i] == s[k + i]; }
  }

  lemma WithoutCommaJoin(a: string, b: string)
    requires ',' !in b
    ensures Without(',', a + "," + b) == Without(',', a) + b
  {
    var x := Without(',', a + ",");
    assert x == Without(',', a) by {
      WithoutAppend(',', a, ",");
      WithoutOnly(',');
    }
    assert Without(',', b) == b by {
      WithoutAbsent(',', b);
    }
    assert Without(',', (a + ",") + b) == x + Without(',', b) by {
      WithoutAppend(',', a + ",", b);
    }
  }

  /** Taking the separators back out of a grouped numeral gives the plain
      numeral: grouping only inserts commas. */
  lemma {:induction false} GroupOnlyInsertsCommas(s: string)
    requires ',' !in s
    ensures Without(',', Group(s)) == s
    decreases |s|
  {
    if |s| <= 3 {
      WithoutAbsent(',', s);
    } else {
      var hi, lo := s[..|s| - 3], s[|s| - 3..];
      AbsentFromSlices(',', s, |s| - 3);
      calc {
        Without(',', Group(s));
        Without(',', Group(hi) + "," + lo);
        { WithoutCommaJoin(Group(hi), lo); }
        Without(',', Group(hi)) + lo;
        { GroupOnlyInsertsCommas(hi); }
        hi + lo;
        s;
      }
    }
  }

  /** Where the separators go: counting from the right, every fourth
      character is a comma and every other one a digit, so each comma is
      followed by exactly three digits and the leading group has one to
      three. */
  lemma {:induction false} GroupPositions(s: string)
    requires |s| >= 1 && AllDigits(s)
    ensures |Group(s)| == |s| + (|s| - 1) / 3
    ensures forall i :: 0 <= i < |Group(s)| ==> (Group(s)[i] == ',' <==> (|Group(s)| - i) % 4 == 0)
    decreases |s|
  {
    var r := Group(s);
    if |s| <= 3 {
      forall i | 0 <= i < |r| ensures r[i] == ',' <==> (|r| - i) % 4 == 0 {
        assert IsDigit(s[i]);
        SmallNotMultipleOf4(|r| - i);
      }
    } else {
      var hi := s[..|s| - 3];
      var g := Group(hi);
      var t := s[|s| - 3..];
      assert AllDigits(hi) by { forall i | 0 <= i < |hi| ensures IsDigit(hi[i]) { assert hi[i] == s[i]; } }
      GroupPositions(hi);
      assert r == g + "," + t;
      assert |r| == |g| + 4;
      forall i | 0 <= i < |r| ensures r[i] == ',' <==> (|r| - i) % 4 == 0 {
        if i < |g| {
          assert r[i] == g[i];
          ShiftBy4(|g| - i);
        } else if i > |g| {
          assert r[i] == s[|s| - 3 + (i - |g| - 1)];
          assert IsDigit(s[|s| - 3 + (i - |g| - 1)]);
          SmallNotMultipleOf4(|r| - i);
        } else {
          assert |r| - i == 4;
        }
      }
    }
  }

  lemma SmallNotMultipleOf4(x: int)
    requires 1 <= x <= 3
    ensures x % 4 != 0
  {
  }

  lemma ShiftBy4(x: int)
    ensures (x + 4) % 4 == x % 4
  {
  }

  function Sign(v: int): string { if v < 0 then "-" else "" }

  function Abs(v: int): nat { if v < 0 then -v else v }

  /** `f"{x:.2f}"` for the amount `x = v / 100`. */
  function Fixed2(v: int): string
  {
    Sign(v) + NatToString(Abs(v) / 100) + "." + ZeroPad2(Abs(v) % 100)
  }

  /** `f"{x:,.2f}"` for the amount `x = v / 100`: as `.2f`, with thousands
      separators in the integer part. */
  function Grouped2(v: int): string
  {
    Sign(v) + Group(NatToString(Abs(v) / 100)) + "." + ZeroPad2(Abs(v) % 100)
  }

  predicate AllDigits(s: string) { forall i :: 0 <= i < |s| ==> IsDigit(s[i]) }

  /** Reads back an unsigned `.2f` text: digits, '.', two digits. */
  function ParseUnsigned2(s: string): Option<nat>
  {
    if |s| >= 4 && s[|s| - 3] == '.' && AllDigits(s[..|s| - 3]) && AllDigits(s[|s| - 2..])
    then Some(DigitsValue(s[..|s| - 3]) * 100 + DigitsValue(s[|s| - 2..]))
    else None
  }

  /** Reads back a `.2f` text as hundredths: an optional '-', then an
      unsigned amount. */
  function ParseFixed2(s: string): Option<int>
  {
    var negative := |s| >= 1 && s[0] == '-';
    match ParseUnsigned2(if negative then s[1..] else s)
    case Some(n) => Some(if negative then 0 - n as int else n as int)
    case None => None
  }

  /** Leading zeros do not change the value of a numeral. */
  lemma {:induction false} LeadingZeros(k: nat, s: string)
    requires AllDigits(s)
    ensures AllDigits(Repeat('0', k) + s)
    ensures DigitsValue(Repeat('0', k) + s) == DigitsValue(s)
    decreases |s|
  {
    var z := Repeat('0', k);
    assert AllDigits(z + s) by {
      forall i | 0 <= i < |z + s| ensures IsDigit((z + s)[i]) {
        if i >= |z| { assert (z + s)[i] == s[i - |z|]; }
      }
    }
    if s == [] {
      assert z + s == z;
      ZerosValue(k);
    } else {
      var front := s[..|s| - 1];
      assert AllDigits(front) by { forall i | 0 <= i < |front| ensures IsDigit(front[i]) { assert front[i] == s[i]; } }
      LeadingZeros(k, front);
      assert (z + s)[..|z + s| - 1] == z + front;
    }
  }

  lemma {:induction false} ZerosValue(k: nat)
    ensures AllDigits(Repeat('0', k))
    ensures DigitsValue(Repeat('0', k)) == 0
    decreases k
  {
    if k > 0 {
      ZerosValue(k - 1);
      assert Repeat('0', k)[..k - 1] == Repeat('0', k - 1);
    }
  }

  /** `%Y` reads back as the year, and has exactly four digits below 10000. */
  lemma ZeroPad4Value(n: nat)
    ensures DigitsValue(ZeroPad4(n)) == n
    ensures n < 10000 ==> |ZeroPad4(n)| == 4
  {
    var s := NatToString(n);
    NatToStringRoundTrip(n);
    if |s| < 4 {
      LeadingZeros(4 - |s|, s);
    }
    if n < 10000 { NumeralLength(n); }
  }

  /** A numeral below 10000 has at most four digits. */
  lemma {:induction false} NumeralLength(n: nat)
    ensures n < 10 ==> |NatToString(n)| == 1
    ensures n < 100 ==> |NatToString(n)| <= 2
    ensures n < 1000 ==> |NatToString(n)| <= 3
    ensures n < 10000 ==> |NatToString(n)| <= 4
  {
    if n >= 10 { NumeralLength(n / 10); }
  }

  lemma ZeroPad2Value(n: nat)
    requires n < 100
    ensures |ZeroPad2(n)| == 2 && DigitsValue(ZeroPad2(n)) == n
  {
    NatToStringRoundTrip(n);
    if n < 10 {
      var z := ZeroPad2(n);
      assert z[..1] == "0";
      assert DigitsValue("0") == 0 by { assert "0"[..0] == ""; }
    } else {
      assert NatToString(n) == NatToString(n / 10) + [DigitChar(n % 10)];
    }
  }

  lemma UnsignedParts(units: string, cents: string)
    requires |units| >= 1 && AllDigits(units) && |cents| == 2 && AllDigits(cents)
    ensures ParseUnsigned2(units + "." + cents) == Some(DigitsValue(units) * 100 + DigitsValue(cents))
  {
    var s := units + "." + cents;
    assert s[..|s| - 3] == units;
    assert s[|s| - 2..] == cents;
  }

  lemma SignedParts(v: int, u: string)
    requires |u| >= 1 && u[0] != '-' && ParseUnsigned2(u) == Some(Abs(v))
    ensures ParseFixed2(Sign(v) + u) == Some(v)
  {
    if v < 0 {
      assert ("-" + u)[1..] == u;
    } else {
      assert Sign(v) + u == u;
    }
  }

  /** Reading `.2f` text back gives the amount it was written from. */
  lemma Fixed2RoundTrip(v: int)
    ensures ParseFixed2(Fixed2(v)) == Some(v)
  {
    var u := NatToString(Abs(v) / 100) + "." + ZeroPad2(Abs(v) % 100);
    UnsignedRoundTrip(Abs(v));
    assert u[0] != '-' by { assert IsDigit(NatToString(Abs(v) / 100)[0]); }
    SignedParts(v, u);
    assert Fixed2(v) == Sign(v) + u;
  }

  /** The unsigned part of `.2f` reads back as the amount in hundredths. */
  lemma UnsignedRoundTrip(n: nat)
    ensures ParseUnsigned2(NatToString(n / 100) + "." + ZeroPad2(n % 100)) == Some(n)
  {
    var units, cents := NatToString(n / 100), ZeroPad2(n % 100);
    NatToStringRoundTrip(n / 100);
    ZeroPad2Value(n % 100);
    assert DigitsValue(units) * 100 + DigitsValue(cents) == n by { DivMod100(n); }
    UnsignedParts(units, cents);
  }

  lemma DivMod100(n: nat)
    ensures n / 100 * 100 + n % 100 == n
  {
  }

  /** The shape of `.2f`: a minus sign exactly for a negative amount (so
      zero is "0.00", never "-0.00"), then digits, the point as the third
      character from the end, and two digits. */
  lemma {:induction false} Fixed2Shape(v: int)
    ensures |Fixed2(v)| >= 4
    ensures Fixed2(v)[0] == '-' <==> v < 0
    ensures Fixed2(v)[|Fixed2(v)| - 3] == '.'
    ensures v == 0 ==> Fixed2(v) == "0.00"
  {
    var units, cents := NatToString(Abs(v) / 100), ZeroPad2(Abs(v) % 100);
    ZeroPad2Value(Abs(v) % 100);
    assert Fixed2(v) == Sign(v) + units + "." + cents;
    if v >= 0 {
      assert Fixed2(v)[0] == units[0];
      assert IsDigit(units[0]);
    }
    if v == 0 {
      assert units == "0";
      assert cents == "0" + NatToString(0) == "00";
    }
  }

  /** `,.2f` and `.2f` write the same amount: removing the separators from
      the grouped text gives the plain text. */
  lemma GroupedIsFixedWithSeparators(v: int)
    ensures Without(',', Grouped2(v)) == Fixed2(v)
  {
    var units := NatToString(Abs(v) / 100);
    DigitsHaveNoComma(units);
    DigitsHaveNoComma(ZeroPad2(Abs(v) % 100));
    GroupedParts(Sign(v), units, ZeroPad2(Abs(v) % 100));
  }

  lemma DigitsHaveNoComma(s: string)
    requires forall i :: 0 <= i < |s| ==> IsDigit(s[i])
    ensures ',' !in s
  {
  }

  lemma GroupedParts(sign: string, units: string, cents: string)
    requires ',' !in sign && ',' !in units && ',' !in cents
    ensures Without(',', sign + Group(units) + "." + cents) == sign + units + "." + cents
  {
    NoCommaBeforeCents(cents);
    GroupOnlyInsertsCommas(units);
    WithoutAround(sign, Group(units), "." + cents);
    Regroup(sign, Group(units), cents);
    Regroup(sign, units, cents);
  }

  lemma NoCommaBeforeCents(cents: string)
    requires ',' !in cents
    ensures ',' !in "." + cents
  {
  }

  lemma Regroup(a: string, b: string, c: string)
    ensures a + b + "." + c == a + b + ("." + c)
  {
  }

  lemma WithoutAround(a: string, g: string, t: string)
    requires ',' !in a && ',' !in t
    ensures Without(',', a + g + t) == a + Without(',', g) + t
  {
    WithoutAppend(',', a + g, t);
    WithoutAppend(',', a, g);
    WithoutAbsent(',', a);
    WithoutAbsent(',', t);
  }

  // ----- reading an amount column back -----

  /** The characters `,.2f` writes: digits, separators, the point, a sign. */
  predicate AmountChar(c: char) { IsDigit(c) || c == ',' || c == '.' || c == '-' }

  /** The characters `.2f` writes: the same without separators. */
  predicate PlainChar(c: char) { IsDigit(c) || c == '.' || c == '-' }

  lemma {:induction false} GroupChars(s: string)
    requires AllDigits(s)
    ensures forall i :: 0 <= i < |Group(s)| ==> IsDigit(Group(s)[i]) || Group(s)[i] == ','
    decreases |s|
  {
    if |s| > 3 {
      var g := Group(s[..|s| - 3]);
      var t := s[|s| - 3..];
      GroupChars(s[..|s| - 3]);
      assert Group(s) == g + "," + t;
      forall i | 0 <= i < |Group(s)| ensures IsDigit(Group(s)[i]) || Group(s)[i] == ',' {
        if i < |g| {
          assert Group(s)[i] == g[i];
        } else if i > |g| {
          assert Group(s)[i] == t[i - |g| - 1];
        }
      }
    }
  }

  /** An amount never contains a space or a newline: it is made of digits,
      separators, the point and a sign only. */
  lemma AmountChars(v: int)
    ensures forall i :: 0 <= i < |Grouped2(v)| ==> AmountChar(Grouped2(v)[i])
    ensures forall i :: 0 <= i < |Fixed2(v)| ==> PlainChar(Fixed2(v)[i])
  {
    GroupChars(NatToString(Abs(v) / 100));
  }

  /** The number a padded amount column shows: the padding and the
      thousands separators taken out, the rest read as `.2f`. */
  function ReadAmount(field: string): Option<int>
  {
    ParseFixed2(Without(',', Without(' ', field)))
  }

  lemma {:induction false} WithoutRepeat(c: char, n: nat)
    ensures Without(c, Repeat(c, n)) == ""
  {
    if n > 0 {
      WithoutRepeat(c, n - 1);
      WithoutAppend(c, Repeat(c, n - 1), [c]);
      WithoutOnly(c);
    }
  }

  /** Padding on the left adds only spaces. */
  lemma PaddingWithout(s: string, w: nat)
    requires ' ' !in s
    ensures Without(' ', PadLeft(s, w)) == s
  {
    WithoutAbsent(' ', s);
    if |s| < w {
      WithoutRepeat(' ', w - |s|);
      WithoutAppend(' ', Repeat(' ', w - |s|), s);
    }
  }

  /** Neither amount form contains a space; the plain form has no comma. */
  lemma AmountSeparators(v: int)
    ensures ' ' !in Grouped2(v) && ' ' !in Fixed2(v) && ',' !in Fixed2(v)
    ensures '\n' !in Grouped2(v) && '\n' !in Fixed2(v)
  {
    AmountChars(v);
    var g, f := Grouped2(v), Fixed2(v);
    assert forall i :: 0 <= i < |g| ==> g[i] != ' ' && g[i] != '\n' by {
      forall i | 0 <= i < |g| ensures g[i] != ' ' && g[i] != '\n' { assert AmountChar(g[i]); }
    }
    assert forall i :: 0 <= i < |f| ==> f[i] != ' ' && f[i] != ',' && f[i] != '\n' by {
      forall i | 0 <= i < |f| ensures f[i] != ' ' && f[i] != ',' && f[i] != '\n' { assert PlainChar(f[i]); }
    }
  }

  /** Padding adds only spaces, so a character other than the space is in
      the padded text exactly when it is in the text. */
  lemma PaddingAddsOnlySpaces(c: char, s: string, w: nat)
    requires c != ' '
    ensures c in PadLeft(s, w) <==> c in s
    ensures c in PadRight(s, w) <==> c in s
  {
    if |s| < w {
      var r := Repeat(' ', w - |s|);
      assert c !in r;
      assert PadLeft(s, w) == r + s;
      assert PadRight(s, w) == s + r;
    }
  }

  /** An amount right-aligned in a column of any width reads back as the
      amount: the column never truncates or alters it. */
  lemma GroupedReadsBack(v: int, w: nat)
    ensures ReadAmount(PadLeft(Grouped2(v), w)) == Some(v)
  {
    AmountSeparators(v);
    PaddingWithout(Grouped2(v), w);
    GroupedIsFixedWithSeparators(v);
    Fixed2RoundTrip(v);
  }

  lemma FixedReadsBack(v: int, w: nat)
    ensures ReadAmount(PadLeft(Fixed2(v), w)) == Some(v)
  {
    AmountSeparators(v);
    PaddingWithout(Fixed2(v), w);
    WithoutAbsent(',', Fixed2(v));
    Fixed2RoundTrip(v);
  }

  // ----- lines -----

  /** Each line followed by a newline: what `text += line + "\n"` builds. */
  function Terminated(lines: seq<string>): string
  {
    if lines == [] then "" else Terminated(lines[..|lines| - 1]) + lines[|lines| - 1] + "\n"
  }

  lemma {:induction false} TerminatedAppend(a: seq<string>, b: seq<string>)
    ensures Terminated(a + b) == Terminated(a) + Terminated(b)
    decreases |b|
  {
    if b == [] {
      assert a + b == a;
    } else {
      assert (a + b)[..|a + b| - 1] == a + b[..|b| - 1];
      TerminatedAppend(a, b[..|b| - 1]);
    }
  }

  /** Appending one more terminated line. */
  lemma TerminatedSnoc(lines: seq<string>, x: string)
    ensures Terminated(lines + [x]) == Terminated(lines) + x + "\n"
  {
    assert (lines + [x])[..|lines|] == lines;
  }

  /** `"\n".join(lines)`. */
  function JoinLines(lines: seq<string>): string
    requires |lines| >= 1
  {
    if |lines| == 1 then lines[0] else lines[0] + "\n" + JoinLines(lines[1..])
  }

  /** Terminating every line but the last and then appending the last is
      joining them with newlines. */
  lemma {:induction false} JoinIsTerminatedThenLast(lines: seq<string>)
    requires |lines| >= 1
    ensures JoinLines(lines) == Terminated(lines[..|lines| - 1]) + lines[|lines| - 1]
    decreases |lines|
  {
    if |lines| > 1 {
      var rest := lines[1..];
      JoinIsTerminatedThenLast(rest);
      assert lines[..|lines| - 1] == [lines[0]] + rest[..|rest| - 1];
      TerminatedAppend([lines[0]], rest[..|rest| - 1]);
      assert Terminated([lines[0]]) == lines[0] + "\n" by {
        assert [lines[0]][..0] == [];
      }
    }
  }

  /** Joining lines is terminating all but the last and appending it. */
  lemma JoinSnoc(lines: seq<string>, last: string)
    ensures JoinLines(lines + [last]) == Terminated(lines) + last
  {
    JoinIsTerminatedThenLast(lines + [last]);
    assert (lines + [last])[..|lines|] == lines;
  }

  /** `text.split("\n")`. */
  function SplitLines(s: string): (r: seq<string>)
    ensures |r| >= 1
  {
    if s == [] then [""]
    else if s[0] == '\n' then [""] + SplitLines(s[1..])
    else var tail := SplitLines(s[1..]); [[s[0]] + tail[0]] + tail[1..]
  }

  lemma {:induction false} SplitNoNewline(s: string)
    requires '\n' !in s
    ensures SplitLines(s) == [s]
    decreases |s|
  {
    if s != [] {
      assert s[0] != '\n';
      assert '\n' !in s[1..];
      SplitNoNewline(s[1..]);
      assert [s[0]] + s[1..] == s;
    }
  }

  lemma {:induction false} SplitAtFirstNewline(a: string, b: string)
    requires '\n' !in a
    ensures SplitLines(a + "\n" + b) == [a] + SplitLines(b)
    decreases |a|
  {
    if a == [] {
      assert a + "\n" + b == "\n" + b;
      assert ("\n" + b)[1..] == b;
    } else {
      var s := a + "\n" + b;
      assert s[0] == a[0] && a[0] != '\n';
      assert s[1..] == a[1..] + "\n" + b;
      assert '\n' !in a[1..];
      SplitAtFirstNewline(a[1..], b);
      assert [a[0]] + a[1..] == a;
    }
  }

  /** Splitting joined lines at newlines gives the lines back, provided no
      line contains a newline of its own. */
  lemma {:induction false} SplitJoinRoundTrip(lines: seq<string>)
    requires |lines| >= 1
    requires forall i :: 0 <= i < |lines| ==> '\n' !in lines[i]
    ensures SplitLines(JoinLines(lines)) == lines
    decreases |lines|
  {
    if |lines| == 1 {
      SplitNoNewline(lines[0]);
    } else {
      SplitJoinRoundTrip(lines[1..]);
      SplitAtFirstNewline(lines[0], JoinLines(lines[1..]));
      assert lines == [lines[0]] + lines[1..];
    }
  }
}
