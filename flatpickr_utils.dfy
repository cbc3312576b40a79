/** The date-picker helpers of src/components/Editor/flatpickr/utils/index.ts: zero padding
    by `slice` with a negative start, boolean to number, and wrapping a value in an array. */
module FlatpickrUtils {
  import opened Text

  /** `pad` accepts a number or a string. */
  datatype Padded = Num(n: int) | Str(s: string)

  /** The decimal digits of a natural number, as `Number.prototype.toString` writes them. */
  function Digits(n: nat): (r: string)
    ensures |r| > 0 && forall i :: 0 <= i < |r| ==> IsDigit(r[i])
    ensures |r| > 1 ==> r[0] != '0'
  {
    var last := ['0' + (n % 10) as char];
    if n < 10 then last else Digits(n / 10) + last
  }

  /** Reading the digits back gives the number. */
  lemma {:induction false} DigitsValue(n: nat)
    ensures DecimalValue(Digits(n)) == n
  {
    if n >= 10 {
      DigitsValue(n / 10);
      var d := Digits(n);
      assert d[..|d| - 1] == Digits(n / 10);
    }
  }

  /** `${number}` for an integer. */
  function IntToString(n: int): (r: string)
    ensures |r| > 0
  {
    if n < 0 then "-" + Digits(-n) else Digits(n)
  }

  function PadText(p: Padded): string {
    match p
    case Num(n) => IntToString(n)
    case Str(s) => s
  }

  /** `String.prototype.slice(k)` with a single argument: a negative `k` counts from the end,
      and `k` is clamped into the string. */
  function SliceFrom(s: string, k: int): (r: string)
    ensures |r| <= |s| && r == s[|s| - |r|..]
    ensures k < 0 ==> |r| == (if -k < |s| then -k else |s|)
    ensures k >= 0 ==> |r| == (if k < |s| then |s| - k else 0)
  {
    if k < 0 then s[if |s| + k < 0 then 0 else |s| + k..]
    else s[if k > |s| then |s| else k..]
  }

  /** pad: `"000" + number`, keeping the last `length` characters. */
  function Pad(p: Padded, length: int): string {
    SliceFrom("000" + PadText(p), length * -1)
  }

  /** The default length is 2. */
  function Pad2(p: Padded): string {
    Pad(p, 2)
  }

  /** For a positive length, `pad` keeps the last `length` characters of the zero-prefixed
      text, or all of it when it is shorter. */
  lemma PadKeepsSuffix(p: Padded, length: int)
    requires length >= 1
    ensures var t := "000" + PadText(p);
      var r := Pad(p, length);
      |r| == (if length < |t| then length else |t|) && r == t[|t| - |r|..]
  {
  }

  /** `slice(-0)` is `slice(0)`: a zero length keeps the whole zero-prefixed text. */
  lemma PadZeroLength(p: Padded)
    ensures Pad(p, 0) == "000" + PadText(p)
  {
  }

  /** Zero padding to at least the number of digits reads back as the same number. */
  lemma PadRoundTrip(n: nat, length: int)
    requires |Digits(n)| <= length <= |Digits(n)| + 3
    ensures var r := Pad(Num(n), length);
      |r| == length && (forall i :: 0 <= i < |r| ==> IsDigit(r[i])) && DecimalValue(r) == n
  {
    var d := Digits(n);
    var z := "000"[3 - (length - |d|)..];
    PadOfDigits(d, length);
    assert forall i :: 0 <= i < |z| ==> z[i] == '0';
    LeadingZeros(z, d);
    DigitsValue(n);
  }

  /** Padding digits `d` to `length` puts `length - |d|` zeros in front of them. */
  lemma PadOfDigits(d: string, length: int)
    requires 0 < |d| <= length <= |d| + 3
    ensures SliceFrom("000" + d, length * -1) == "000"[3 - (length - |d|)..] + d
  {
    var t := "000" + d;
    var k := 3 - (length - |d|);
    assert SliceFrom(t, length * -1) == t[k..];
    assert t[k..] == "000"[k..] + d;
  }

  /** Leading zeros do not change the value of a digit string. */
  lemma {:induction false} LeadingZeros(z: string, d: string)
    requires forall i :: 0 <= i < |z| ==> z[i] == '0'
    requires forall i :: 0 <= i < |d| ==> IsDigit(d[i])
    ensures forall i :: 0 <= i < |z + d| ==> IsDigit((z + d)[i])
    ensures DecimalValue(z + d) == DecimalValue(d)
    decreases |d|
  {
    var s := z + d;
    assert forall i :: 0 <= i < |s| ==> IsDigit(s[i]) by {
      forall i | 0 <= i < |s| ensures IsDigit(s[i]) {
        if i < |z| { assert s[i] == z[i]; } else { assert s[i] == d[i - |z|]; }
      }
    }
    if |d| == 0 {
      assert s == z;
      AllZeros(z);
    } else {
      assert s[..|s| - 1] == z + d[..|d| - 1];
      LeadingZeros(z, d[..|d| - 1]);
    }
  }

  lemma {:induction false} AllZeros(z: string)
    requires forall i :: 0 <= i < |z| ==> z[i] == '0'
    ensures DecimalValue(z) == 0
  {
    if |z| > 0 {
      AllZeros(z[..|z| - 1]);
    }
  }

  /** The default-length examples: one digit gains a zero, two digits stay, and more digits
      lose their leading ones. */
  lemma PadExamples()
    ensures Pad2(Num(5)) == "05" && Pad2(Num(12)) == "12" && Pad2(Num(123)) == "23"
  {
    PadTwoDigits();
    PadThreeDigits();
  }

  lemma PadTwoDigits()
    ensures Pad2(Num(12)) == "12"
  {
    assert Digits(12) == "12" by { assert Digits(1) == "1"; }
  }

  lemma PadThreeDigits()
    ensures Pad2(Num(123)) == "23"
  {
    assert Digits(123) == "123" by { assert Digits(12) == "12" by { assert Digits(1) == "1"; } }
  }

  /** int: 1 for `true`, 0 for `false`. */
  function Int(b: bool): (r: int)
    ensures r == 0 || r == 1
    ensures r == 1 <==> b
  {
    if b == true then 1 else 0
  }

  /** A value of type `T | T[]`. */
  datatype OneOrMany<T> = One(item: T) | Many(items: seq<T>)

  /** arrayify: an array is returned as it is, anything else becomes a one-element array. */
  function Arrayify<T>(o: OneOrMany<T>): (r: seq<T>)
    ensures o.Many? ==> r == o.items
    ensures o.One? ==> r == [o.item]
  {
    match o
    case One(x) => [x]
    case Many(xs) => xs
  }

  /** Arrayifying an array changes nothing, so arrayify is idempotent. */
  lemma ArrayifyIdempotent<T>(o: OneOrMany<T>)
    ensures Arrayify(Many(Arrayify(o))) == Arrayify(o)
  {
  }
}
