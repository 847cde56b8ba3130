/**
 The sequential names both scripts give to the files they transfer:
 `f"{counter:03d}{os.path.splitext(path)[1]}"`, that is the counter in
 decimal, left-padded with zeros to three digits, followed by the extension
 of the original path.
 */
module Numbering {
  import opened Strings
  import opened Paths

  function DigitChar(d: nat): char
    requires d < 10
  {
    ('0' as int + d) as char
  }

  function DigitValue(c: char): nat
    requires IsDigit(c)
  {
    c as int - '0' as int
  }

  /** `str(n)` for a non-negative `n`: its decimal digits, without leading zeros */
  function Decimal(n: nat): (r: string)
    ensures |r| >= 1 && AllDigits(r)
    ensures r[0] == '0' ==> n == 0
  {
    if n < 10 then [DigitChar(n)] else Decimal(n / 10) + [DigitChar(n % 10)]
  }

  /** The number a string of decimal digits denotes; leading zeros are allowed. */
  function ParseDecimal(s: string): nat
    requires AllDigits(s)
    decreases |s|
  {
    if s == [] then 0 else ParseDecimal(s[..|s| - 1]) * 10 + DigitValue(s[|s| - 1])
  }

  /** Reading back the digits of `Decimal(n)` gives `n`. */
  lemma {:induction false} ParseDecimalOfDecimal(n: nat)
    ensures ParseDecimal(Decimal(n)) == n
  {
    if n >= 10 {
      var d := Decimal(n);
      assert d[..|d| - 1] == Decimal(n / 10);
      ParseDecimalOfDecimal(n / 10);
    }
  }

  /** A leading zero does not change the number. */
  lemma {:induction false} ParseLeadingZero(s: string)
    requires AllDigits(s)
    ensures ParseDecimal("0" + s) == ParseDecimal(s)
    decreases |s|
  {
    if s != [] {
      assert ("0" + s)[..|s|] == "0" + s[..|s| - 1];
      ParseLeadingZero(s[..|s| - 1]);
    }
  }

  function Zeros(k: nat): (r: string)
    ensures |r| == k && AllDigits(r)
  {
    seq(k, _ => '0')
  }

  /** Any number of leading zeros leaves the number unchanged. */
  lemma {:induction false} ParseLeadingZeros(k: nat, s: string)
    requires AllDigits(s)
    ensures ParseDecimal(Zeros(k) + s) == ParseDecimal(s)
  {
    if k > 0 {
      var t := Zeros(k - 1) + s;
      assert AllDigits(t);
      assert Zeros(k) + s == "0" + t;
      ParseLeadingZeros(k - 1, s);
      ParseLeadingZero(t);
    } else {
      assert Zeros(k) + s == s;
    }
  }

  /** A number below 1000 has at most three decimal digits, one from 1000 on at least four. */
  lemma DecimalLength(n: nat)
    ensures n < 1000 <==> |Decimal(n)| <= 3
  {
    if n >= 10 {
      DecimalLength(n / 10);
      if n / 10 >= 10 {
        DecimalLength(n / 100);
      }
    }
  }

  /**
   `f"{n:03d}"` for a non-negative `n`: what it reads as is `n`; it has
   exactly three characters below 1000 and overflows the padding, without
   leading zeros, from 1000 on.
   */
  function Pad3(n: nat): (r: string)
    ensures AllDigits(r) && |r| >= 3
    ensures ParseDecimal(r) == n
    ensures n < 1000 ==> |r| == 3
    ensures n >= 1000 ==> r == Decimal(n)
  {
    var d := Decimal(n);
    DecimalLength(n);
    ParseDecimalOfDecimal(n);
    if |d| < 3 then
      ParseLeadingZeros(3 - |d|, d);
      Zeros(3 - |d|) + d
    else
      d
  }

  /** One, two and three digits are padded to three; four digits overflow the padding. */
  lemma Pad3Examples()
    ensures Pad3(1) == "001" && Pad3(42) == "042" && Pad3(999) == "999"
    ensures Pad3(1000) == "1000"
  {
    assert Decimal(1) == "1" && Zeros(2) == "00";
    assert Decimal(4) == "4" && Decimal(42) == "42" && Zeros(1) == "0";
    assert Decimal(9) == "9" && Decimal(99) == "99" && Decimal(999) == "999";
    assert Decimal(1) == "1" && Decimal(10) == "10" && Decimal(100) == "100" && Decimal(1000) == "1000";
  }

  /** The run of decimal digits a string starts with. */
  function DigitPrefix(s: string): (r: string)
    ensures AllDigits(r)
    decreases |s|
  {
    if s == [] || !IsDigit(s[0]) then [] else [s[0]] + DigitPrefix(s[1..])
  }

  lemma {:induction false} DigitPrefixOf(d: string, rest: string)
    requires AllDigits(d)
    requires rest == [] || !IsDigit(rest[0])
    ensures DigitPrefix(d + rest) == d
    decreases |d|
  {
    if d != [] {
      assert (d + rest)[1..] == d[1..] + rest;
      DigitPrefixOf(d[1..], rest);
    } else {
      assert d + rest == rest;
    }
  }

  /** The sequence number a generated name carries: its leading digits, read in decimal. */
  function NumberOf(name: string): nat {
    ParseDecimal(DigitPrefix(name))
  }

  /** `f"{counter:03d}{os.path.splitext(path)[1]}"`: the name a file is transferred under */
  function NewName(counter: nat, path: string): string {
    Pad3(counter) + Extension(path)
  }

  /**
   A generated name carries `counter` as its number, starts with at least
   three digits and ends with the extension of the original path, which is
   empty or starts with ".".
   */
  lemma NewNameParts(counter: nat, path: string)
    ensures NumberOf(NewName(counter, path)) == counter
    ensures |NewName(counter, path)| >= 3 && AllDigits(NewName(counter, path)[..3])
    ensures EndsWith(NewName(counter, path), Extension(path))
  {
    var digits, ext := Pad3(counter), Extension(path);
    SplitExtParts(path);
    DigitPrefixOf(digits, ext);
    assert (digits + ext)[..3] == digits[..3];
    assert (digits + ext)[|digits + ext| - |ext|..] == ext;
  }

  /** Two different counters never give the same name, whatever the paths. */
  lemma NewNameInjective(a: nat, p: string, b: nat, q: string)
    requires NewName(a, p) == NewName(b, q)
    ensures a == b && Extension(p) == Extension(q)
  {
    NewNameParts(a, p);
    NewNameParts(b, q);
    var n := NewName(a, p);
    assert n[|Pad3(a)|..] == Extension(p);
    assert n[|Pad3(b)|..] == Extension(q);
  }

  /** A generated name never starts with "/", so joining it onto a directory keeps it whole. */
  lemma NewNameIsRelative(counter: nat, path: string)
    ensures !StartsWith(NewName(counter, path), "/")
  {
    var n := NewName(counter, path);
    NewNameParts(counter, path);
    assert n[..1][0] == n[0] && IsDigit(n[..3][0]);
  }
}
