/**
 * The upload checks of frontend/src/utils/fileValidation.ts: the size limit,
 * the human-readable size used in its error message, and the empty-file
 * check. Sizes are whole numbers of bytes.
 */
module FileValidation {
  import opened Wrappers

  /** 10 MB, the limit the upload form passes as `maxSize`. */
  const MaxFileSize: int := 10 * 1024 * 1024

  lemma MaxFileSizeValue()
    ensures MaxFileSize == 10485760
  {
  }

  function Pow1024(i: nat): (r: nat)
    ensures r >= 1
  {
    if i == 0 then 1 else 1024 * Pow1024(i - 1)
  }

  /**
   * `Math.floor(Math.log(bytes) / Math.log(1024))`, taken exactly: the
   * index of the largest power of 1024 not above `bytes`.
   */
  function UnitIndex(bytes: nat): (i: nat)
    requires bytes >= 1
    ensures Pow1024(i) <= bytes < Pow1024(i + 1)
  {
    if bytes < 1024 then 0
    else
      var j := UnitIndex(bytes / 1024);
      assert 1024 * Pow1024(j) <= 1024 * (bytes / 1024) <= bytes;
      assert bytes < 1024 * (bytes / 1024 + 1) <= 1024 * Pow1024(j + 1);
      j + 1
  }

  /** `sizes[i]`, which is `undefined` past the last entry. */
  function UnitName(i: nat): (u: string)
    ensures i == 0 ==> u == "Bytes"
    ensures i >= 4 ==> u == "undefined"
  {
    if i < 4 then ["Bytes", "KB", "MB", "GB"][i] else "undefined"
  }

  /**
   * `(bytes / p).toFixed(2)` as a count of hundredths: the nearest one to
   * bytes / p, the larger of two equally near ones.
   */
  function Hundredths(bytes: nat, p: nat): (n: nat)
    requires p >= 1
    ensures -(p as int) < 2 * ((n * p) as int - 100 * bytes) <= p
  {
    var a := 200 * bytes + p;
    var n := a / (2 * p);
    assert n * (2 * p) <= a < n * (2 * p) + 2 * p by {
      DivBounds(a, 2 * p);
    }
    assert n * (2 * p) == 2 * (n * p);
    n
  }

  lemma DivBounds(a: nat, b: nat)
    requires b >= 1
    ensures (a / b) * b <= a < (a / b) * b + b
  {
    assert a == (a / b) * b + a % b;
  }

  /** Division is determined by quotient and remainder. */
  lemma DivExact(a: nat, b: nat, q: nat, r: nat)
    requires b >= 1 && r < b && a == q * b + r
    ensures a / b == q
  {
    var q' := a / b;
    DivBounds(a, b);
    if q' < q {
      assert (q' + 1) * b == q' * b + b;
      MulMonotone(q' + 1, q, b);
    } else if q < q' {
      assert (q + 1) * b == q * b + b;
      MulMonotone(q + 1, q', b);
    }
  }

  lemma MulMonotone(x: nat, y: nat, b: nat)
    requires x <= y
    ensures x * b <= y * b
  {
    assert y * b == x * b + (y - x) * b;
  }

  function DigitChar(d: nat): (c: char)
    requires d < 10
    ensures '0' <= c <= '9' && c as int - '0' as int == d
  {
    ['0', '1', '2', '3', '4', '5', '6', '7', '8', '9'][d]
  }

  /** A natural number written in decimal, without leading zeros. */
  function Digits(n: nat): (s: string)
    ensures 1 <= |s|
    ensures forall k :: 0 <= k < |s| ==> '0' <= s[k] <= '9'
    ensures |s| > 1 ==> s[0] != '0'
  {
    if n < 10 then [DigitChar(n)] else Digits(n / 10) + [DigitChar(n % 10)]
  }

  /** The value of a string of decimal digits. */
  function DigitsValue(s: string): nat
  {
    if s == [] then 0
    else
      var d := s[|s| - 1] as int - '0' as int;
      10 * DigitsValue(s[..|s| - 1]) + (if 0 <= d < 10 then d else 0)
  }

  lemma {:induction false} DigitsRoundTrip(n: nat)
    ensures DigitsValue(Digits(n)) == n
  {
    if n >= 10 {
      DigitsRoundTrip(n / 10);
      var s := Digits(n);
      assert s[..|s| - 1] == Digits(n / 10);
    }
  }

  /**
   * `${parseFloat(x.toFixed(2))}` for x = n / 100: the whole part, then
   * the hundredths with trailing zeros (and a bare point) dropped.
   */
  function Decimal(n: nat): (s: string)
    ensures n % 100 == 0 ==> s == Digits(n / 100)
  {
    var whole := Digits(n / 100);
    var frac := n % 100;
    if frac == 0 then whole
    else if frac % 10 == 0 then whole + "." + [DigitChar(frac / 10)]
    else whole + "." + [DigitChar(frac / 10), DigitChar(frac % 10)]
  }

  /**
   * `formatFileSize`: "0 Bytes" for zero; for a positive size, the size in
   * the largest unit of 1024 it reaches, to two decimals; for a negative
   * one every step yields NaN and `sizes[NaN]` is undefined.
   */
  function FormatFileSize(bytes: int): (s: string)
    ensures bytes == 0 ==> s == "0 Bytes"
    ensures bytes < 0 ==> s == "NaN undefined"
  {
    if bytes == 0 then "0 Bytes"
    else if bytes < 0 then "NaN undefined"
    else
      InUnit(bytes, UnitIndex(bytes))
  }

  /** `bytes` written in unit i. */
  function InUnit(bytes: nat, i: nat): string {
    Decimal(Hundredths(bytes, Pow1024(i))) + " " + UnitName(i)
  }

  /** A whole number of hundredths is written without a fractional part. */
  lemma DecimalWhole(k: nat)
    ensures Decimal(100 * k) == Digits(k)
  {
    DivExact(100 * k, 100, k, 0);
    assert (100 * k) % 100 == 0;
  }

  /** Exactly k units, k < 1024, print as "k unit". */
  lemma InWholeUnits(k: nat, i: nat)
    requires 1 <= k < 1024
    ensures InUnit(k * Pow1024(i), i) == Digits(k) + " " + UnitName(i)
  {
    HundredthsOfWhole(k, Pow1024(i));
    DecimalWhole(k);
  }

  lemma HundredthsOfWhole(k: nat, p: nat)
    requires p >= 1
    ensures Hundredths(k * p, p) == 100 * k
  {
    assert 200 * (k * p) + p == (100 * k) * (2 * p) + p;
    DivExact(200 * (k * p) + p, 2 * p, 100 * k, p);
  }

  /** Below 1024 the size is printed exactly, in bytes. */
  lemma SmallSizeInBytes(bytes: int)
    requires 1 <= bytes < 1024
    ensures FormatFileSize(bytes) == Digits(bytes) + " Bytes"
  {
    calc {
      FormatFileSize(bytes);
      InUnit(bytes, UnitIndex(bytes));
      { assert UnitIndex(bytes) == 0; }
      InUnit(bytes, 0);
      { OneIsUnitZero(bytes); }
      InUnit(bytes * Pow1024(0), 0);
      { InWholeUnits(bytes, 0); }
      Digits(bytes) + " " + UnitName(0);
    }
  }

  lemma OneIsUnitZero(bytes: nat)
    ensures bytes * Pow1024(0) == bytes
  {
  }

  /** A whole number k of units (1 <= k < 1024) prints as "k unit". */
  lemma WholeUnits(k: nat, i: nat)
    requires 1 <= k < 1024
    ensures FormatFileSize(k * Pow1024(i)) == Digits(k) + " " + UnitName(i)
  {
    var p := Pow1024(i);
    var bytes := k * p;
    MulMonotone(1, k, p);
    MulMonotone(k, 1023, p);
    assert Pow1024(i + 1) == 1024 * p;
    UnitIndexUnique(bytes, i);
    InWholeUnits(k, i);
  }

  lemma {:induction false} Pow1024Monotone(i: nat, j: nat)
    requires i <= j
    ensures Pow1024(i) <= Pow1024(j)
    decreases j - i
  {
    if i < j {
      Pow1024Monotone(i, j - 1);
    }
  }

  lemma UnitIndexUnique(bytes: nat, i: nat)
    requires 1 <= bytes && Pow1024(i) <= bytes < Pow1024(i + 1)
    ensures UnitIndex(bytes) == i
  {
    var j := UnitIndex(bytes);
    if j < i {
      Pow1024Monotone(j + 1, i);
    } else if i < j {
      Pow1024Monotone(i + 1, j);
    }
  }

  /** The limit the upload form uses reads "10 MB". */
  lemma MaxFileSizeFormatted()
    ensures FormatFileSize(MaxFileSize) == "10 MB"
  {
    assert Pow1024(2) == 1048576;
    WholeUnits(10, 2);
    assert Digits(10) == "10";
  }

  /** `validateFileSize`: no error up to the limit, the size and the limit in the message above it. */
  function ValidateFileSize(size: int, maxSize: int): (r: Option<string>)
    ensures r.None? <==> size <= maxSize
    ensures r.Some? ==>
      r.value == "File size (" + FormatFileSize(size) + ") exceeds maximum allowed size (" + FormatFileSize(maxSize) + ")"
  {
    if size > maxSize then
      Some("File size (" + FormatFileSize(size) + ") exceeds maximum allowed size (" + FormatFileSize(maxSize) + ")")
    else None
  }

  /** A file over the default limit is refused with a message naming "10 MB". */
  lemma OverLimitMessage(size: int)
    requires size > MaxFileSize
    ensures ValidateFileSize(size, MaxFileSize) ==
      Some("File size (" + FormatFileSize(size) + ") exceeds maximum allowed size (" + "10 MB" + ")")
  {
    MaxFileSizeFormatted();
  }

  /** One and a half units print as "1.5 unit" (1536 bytes is "1.5 KB", 1536 KB is "1.5 MB"). */
  lemma OneAndAHalfUnits(i: nat)
    requires i >= 1
    ensures FormatFileSize(1536 * Pow1024(i - 1)) == "1.5 " + UnitName(i)
  {
    var q := Pow1024(i - 1);
    var bytes := 1536 * q;
    assert Pow1024(i) == 1024 * q;
    assert Pow1024(i + 1) == 1024 * (1024 * q);
    UnitIndexUnique(bytes, i);
    InHalfUnits(i);
  }

  lemma InHalfUnits(i: nat)
    requires i >= 1
    ensures InUnit(1536 * Pow1024(i - 1), i) == "1.5 " + UnitName(i)
  {
    var q := Pow1024(i - 1);
    var p := Pow1024(i);
    assert p == 1024 * q;
    var bytes := 1536 * q;
    assert 200 * bytes + p == 150 * (2 * p) + p;
    DivExact(200 * bytes + p, 2 * p, 150, p);
    assert Hundredths(bytes, p) == 150;
    DecimalOneAndAHalf();
  }

  lemma DecimalOneAndAHalf()
    ensures Decimal(150) == "1.5"
  {
    assert Digits(1) == "1";
    assert DigitChar(5) == '5';
  }

  lemma ElevenMegabytesFormatted()
    ensures FormatFileSize(11 * 1024 * 1024) == "11 MB"
  {
    assert Pow1024(2) == 1048576;
    WholeUnits(11, 2);
    assert Digits(11) == "11";
  }

  /** An 11 MB file against the default limit: "File size (11 MB) exceeds maximum allowed size (10 MB)". */
  lemma ElevenMegabytesRefused()
    ensures ValidateFileSize(11 * 1024 * 1024, MaxFileSize) ==
      Some("File size (" + "11 MB" + ") exceeds maximum allowed size (" + "10 MB" + ")")
  {
    OverLimitMessage(11 * 1024 * 1024);
    ElevenMegabytesFormatted();
  }

  /** `validateFileNotEmpty`: an error exactly for the empty file. */
  function ValidateFileNotEmpty(size: int): (r: Option<string>)
    ensures r.Some? <==> size == 0
    ensures r.Some? ==> r.value == "Cannot upload empty file"
  {
    if size == 0 then Some("Cannot upload empty file") else None
  }
}
