/**
 * The genotype codec `FloatBinHandler` (hamilton/utils.py and its copy in
 * hamilton_basic/utils.py): a real trait in fixed precision is scaled to an
 * integer and written as a zero-padded binary string, so that every encoded
 * trait has the same width and can be crossed over bit by bit.
 *
 * The codec is stated on the integer `int(f * const)` that the float is
 * scaled to: the float product and its truncation stay outside the model,
 * and `scaledMax` stands for `int(max_value * const)`.
 */
module FloatBin {
  import opened Numerals
  import opened Wrappers

  /** Python's `bin(n)`: "0b" and the binary digits, after a minus sign for negatives. */
  function BinText(n: int): string
  {
    if n < 0 then "-0b" + Chars(Digits(-n, 2)) else "0b" + Chars(Digits(n, 2))
  }

  /** Python's `'0' * k`. */
  function ZeroChars(k: nat): (s: string)
    ensures |s| == k && forall i :: 0 <= i < k ==> s[i] == '0'
  {
    seq(k, _ => '0')
  }

  /** Python's `str.zfill`: left-pad with '0' to `width`, after a leading sign if any. */
  function ZFill(s: string, width: int): string
  {
    if |s| >= width then s
    else if |s| > 0 && (s[0] == '+' || s[0] == '-') then [s[0]] + ZeroChars(width - |s|) + s[1..]
    else ZeroChars(width - |s|) + s
  }

  /** The binary digits of `bin(n)` after its "0b" prefix. */
  function BinDigits(n: nat): (s: string)
    ensures |s| == |Digits(n, 2)| >= 1
    ensures forall i :: 0 <= i < |s| ==> IsBit(s[i])
  {
    Chars(Digits(n, 2))
  }

  predicate IsBit(c: char)
  {
    c == '0' || c == '1'
  }

  /** A string of the form "0b" followed by one or more binary digits. */
  predicate IsBinString(s: string)
  {
    |s| >= 3 && s[..2] == "0b" && forall i :: 2 <= i < |s| ==> IsBit(s[i])
  }

  /**
   * Python's `int(s, 2)` on an optional "0b"/"0B" prefix followed by binary
   * digits; None stands for the ValueError raised on anything else.
   */
  function ParseBase2(s: string): Option<nat>
  {
    if |s| >= 2 && s[0] == '0' && (s[1] == 'b' || s[1] == 'B') then ParseBits(s[2..]) else ParseBits(s)
  }

  /** The value of a non-empty string of binary digits; None for anything else. */
  function ParseBits(body: string): Option<nat>
  {
    if |body| > 0 && forall i :: 0 <= i < |body| ==> IsBit(body[i]) then Some(Value(DigitsOf(body), 2))
    else None
  }

  /** The fields of a `FloatBinHandler`, fixed by its constructor. */
  datatype FloatBinHandler = FloatBinHandler(precision: nat, scale: nat, length: int)

  /** hamilton/utils.py `__init__`: `const = 10**precision`, `length = len(bin(int(max_value * const))) - 2`. */
  function NewHandler(precision: nat, scaledMax: int): (h: FloatBinHandler)
    ensures h.precision == precision && h.scale >= 1
  {
    FloatBinHandler(precision, Pow(10, precision), |BinText(scaledMax)| - 2)
  }

  /** hamilton_basic/utils.py `__init__`: the constant is parsed from the text "1" followed by `precision` zeros. */
  function NewBasicHandler(precision: nat, scaledMax: int): FloatBinHandler
  {
    FloatBinHandler(precision, Value(DigitsOf("1" + ZeroChars(precision)), 10), |BinText(scaledMax)| - 2)
  }

  /** `float2bin(f)` on the scaled integer `n = int(f * const)`. */
  function Float2Bin(h: FloatBinHandler, n: int): string
  {
    "0b" + ZFill(BinText(n)[2..], h.length)
  }

  /** `bin2float(b)`: `int(b, 2) / const`; None when `int` raises. */
  function Bin2Float(h: FloatBinHandler, b: string): Option<real>
    requires h.scale >= 1
  {
    match ParseBase2(b)
    case None => None
    case Some(n) => Some(n as real / h.scale as real)
  }

  // ---------------------------------------------------------------------------
  // Properties

  /** Both constructors compute the same constant, `10^precision`. */
  lemma BasicConstIsPow(precision: nat, scaledMax: int)
    ensures NewBasicHandler(precision, scaledMax) == NewHandler(precision, scaledMax)
  {
    assert DigitsOf("1" + ZeroChars(precision)) == [1] + Zeros(precision);
    OneThenZeros(precision, 10);
  }

  lemma BinTextOfNat(n: nat)
    ensures BinText(n) == "0b" + BinDigits(n)
    ensures BinText(n)[2..] == BinDigits(n)
  {
  }

  /**
   * For a non-negative scaled value, `float2bin` is "0b", then zeros, then
   * the binary digits of the value: the padding reaches `length` and never
   * cuts a digit off.
   */
  lemma EncodeShape(h: FloatBinHandler, n: nat)
    ensures var ds := BinDigits(n);
      var pad := if h.length > |ds| then h.length - |ds| else 0;
      Float2Bin(h, n) == "0b" + ZeroChars(pad) + ds
      && |Float2Bin(h, n)| == 2 + (if h.length > |ds| then h.length else |ds|)
      && IsBinString(Float2Bin(h, n))
  {
    var ds := BinDigits(n);
    var pad := if h.length > |ds| then h.length - |ds| else 0;
    var body := ZeroChars(pad) + ds;
    assert Float2Bin(h, n) == "0b" + body by { BinTextOfNat(n); ZFillDigits(h, n); }
    assert "0b" + body == "0b" + ZeroChars(pad) + ds;
    assert IsBinString("0b" + body) by { BitsAfterPrefix(body); }
  }

  /** "0b" and one or more bits make a binary string. */
  lemma BitsAfterPrefix(body: string)
    requires |body| >= 1 && forall i :: 0 <= i < |body| ==> IsBit(body[i])
    ensures IsBinString("0b" + body)
  {
    var e := "0b" + body;
    assert e[..2] == "0b";
    forall i | 2 <= i < |e| ensures IsBit(e[i]) {
      assert e[i] == body[i - 2];
    }
  }

  lemma DigitsOfPadded(pad: nat, n: nat)
    ensures DigitsOf(ZeroChars(pad) + BinDigits(n)) == Zeros(pad) + Digits(n, 2)
  {
  }

  lemma ZFillDigits(h: FloatBinHandler, n: nat)
    ensures var ds := BinDigits(n);
      ZFill(ds, h.length) == ZeroChars(if h.length > |ds| then h.length - |ds| else 0) + ds
  {
    var ds := BinDigits(n);
    if |ds| >= h.length {
      assert ZeroChars(0) + ds == ds;
    } else {
      assert ds[0] != '+' && ds[0] != '-';
    }
  }

  /** Decoding an encoded non-negative value gives back the value. */
  lemma RoundTrip(h: FloatBinHandler, n: nat)
    ensures ParseBase2(Float2Bin(h, n)) == Some(n)
  {
    var ds := BinDigits(n);
    var pad := if h.length > |ds| then h.length - |ds| else 0;
    var body := ZeroChars(pad) + ds;
    BinTextOfNat(n);
    ZFillDigits(h, n);
    var e := Float2Bin(h, n);
    assert e == "0b" + body;
    assert e[2..] == body;
    assert ParseBase2(e) == ParseBits(body);
    assert forall i :: 0 <= i < |body| ==> IsBit(body[i]);
    DigitsOfPadded(pad, n);
    LeadingZeros(pad, Digits(n, 2), 2);
    ValueOfDigits(n, 2);
  }

  /** `bin2float(float2bin(f))` is `int(f * const) / const` whenever `int(f * const) >= 0`. */
  lemma Bin2FloatOfFloat2Bin(h: FloatBinHandler, n: nat)
    requires h.scale >= 1
    ensures Bin2Float(h, Float2Bin(h, n)) == Some(n as real / h.scale as real)
  {
    RoundTrip(h, n);
  }

  /** A negative scaled value yields a string that `int(_, 2)` rejects. */
  lemma NegativeNotDecodable(h: FloatBinHandler, n: int)
    requires n < 0
    ensures ParseBase2(Float2Bin(h, n)) == None
  {
    var e := Float2Bin(h, n);
    var t := BinText(n)[2..];
    assert t[0] == 'b';
    var z := ZFill(t, h.length);
    var k := if |t| >= h.length then 0 else h.length - |t|;
    assert z[k] == 'b';
    assert e[2..] == z;
    assert e[0] == '0' && e[1] == 'b';
    assert ParseBase2(e) == ParseBits(z);
    assert !IsBit(z[k]);
  }

  /**
   * Every value that scales to at most `int(max_value * const)` encodes to
   * a string of the same width, `2 + length`: the codec's purpose.
   */
  lemma UniformWidth(precision: nat, scaledMax: nat, n: nat)
    requires n <= scaledMax
    ensures var h := NewHandler(precision, scaledMax);
      h.length >= 1 && |Float2Bin(h, n)| == 2 + h.length
  {
    var h := NewHandler(precision, scaledMax);
    BinTextOfNat(scaledMax);
    DigitsCountMono(n, scaledMax, 2);
    EncodeShape(h, n);
  }

  /** The handler built by hamilton/multigene_model.py, `FloatBinHandler(3, 1)`, writes 10 bits. */
  lemma MultigeneHandler()
    ensures NewHandler(3, 1000) == FloatBinHandler(3, 1000, 10)
  {
    assert Pow(10, 3) == 1000;
    assert Digits(1000, 2) == [1, 1, 1, 1, 1, 0, 1, 0, 0, 0] by {
      assert Digits(1, 2) == [1];
      assert Digits(3, 2) == [1, 1];
      assert Digits(7, 2) == [1, 1, 1];
      assert Digits(15, 2) == [1, 1, 1, 1];
      assert Digits(31, 2) == [1, 1, 1, 1, 1];
      assert Digits(62, 2) == [1, 1, 1, 1, 1, 0];
      assert Digits(125, 2) == [1, 1, 1, 1, 1, 0, 1];
      assert Digits(250, 2) == [1, 1, 1, 1, 1, 0, 1, 0];
      assert Digits(500, 2) == [1, 1, 1, 1, 1, 0, 1, 0, 0];
    }
  }
}
