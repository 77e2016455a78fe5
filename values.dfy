/** Scalars as the vendor API reports them, with the two Python behaviours the
    integration relies on: truthiness (`if not device_id`) and the text that an
    f-string produces for a value (`f"{device_nickname} Battery"`). */
module Values {

  datatype Option<+T> = None | Some(value: T)

  /** One JSON-like scalar of a device record or of a sensor snapshot.
      A float is kept as the text Python prints for it: the integration never
      computes with floats, it only stores and formats them. */
  datatype Value =
    | Null
    | Bool(b: bool)
    | Int(i: int)
    | Float(repr: string)
    | Str(s: string)

  /** A Python dictionary from field names to scalars. */
  type Record = map<string, Value>

  /** `dict.get(key)`: the stored value, or nothing when the key is absent. */
  function Get(m: Record, key: string): (r: Option<Value>)
    ensures r.Some? <==> key in m
    ensures r.Some? ==> r.value == m[key]
  {
    if key in m then Some(m[key]) else None
  }

  /** Python truthiness of a scalar: None, False, 0, 0.0 and "" are false. */
  predicate Truthy(v: Value) {
    match v
    case Null => false
    case Bool(b) => b
    case Int(i) => i != 0
    case Float(text) => text != "0.0" && text != "-0.0"
    case Str(s) => s != ""
  }

  predicate IsDigit(c: char) {
    '0' <= c <= '9'
  }

  predicate AllDigits(s: string) {
    forall k :: 0 <= k < |s| ==> IsDigit(s[k])
  }

  function DigitChar(d: nat): (c: char)
    requires d < 10
    ensures IsDigit(c) && c as int - '0' as int == d
  {
    ('0' as int + d) as char
  }

  /** The decimal digits of a natural number, most significant first, as
      Python's `str` writes them. */
  function Digits(n: nat): (r: string)
    ensures |r| > 0 && AllDigits(r)
    ensures |r| > 1 ==> r[0] != '0'
    decreases n
  {
    if n < 10 then [DigitChar(n)] else Digits(n / 10) + [DigitChar(n % 10)]
  }

  /** The number a string of decimal digits denotes. */
  function ParseDigits(s: string): nat
    requires AllDigits(s)
  {
    if s == [] then 0
    else ParseDigits(s[..|s| - 1]) * 10 + (s[|s| - 1] as int - '0' as int)
  }

  /** Reading back the digits of `n` gives `n`: no two numbers share a text. */
  lemma {:induction false} ParseDigitsInverse(n: nat)
    ensures ParseDigits(Digits(n)) == n
  {
    var r := Digits(n);
    if n >= 10 {
      ParseDigitsInverse(n / 10);
      assert r[..|r| - 1] == Digits(n / 10);
    }
  }

  /** `str(i)` for a Python int. */
  function DecimalString(i: int): (r: string)
    ensures |r| > 0
    ensures i >= 0 <==> IsDigit(r[0])
    ensures i >= 0 ==> AllDigits(r) && ParseDigits(r) == i
    ensures i < 0 ==> r[0] == '-' && AllDigits(r[1..]) && ParseDigits(r[1..]) == -i
    ensures i >= 0 && |r| > 1 ==> r[0] != '0'
    ensures i < 0 ==> |r| > 1 && r[1] != '0'
  {
    if i < 0 then
      ParseDigitsInverse(-i);
      assert ("-" + Digits(-i))[1..] == Digits(-i);
      assert ("-" + Digits(-i))[1] == Digits(-i)[0];
      "-" + Digits(-i)
    else
      ParseDigitsInverse(i);
      Digits(i)
  }

  /** Digits written after a prefix are worth the prefix shifted left by
      their count, plus their own value. */
  lemma {:induction false} ParseDigitsAppend(a: string, b: string)
    requires AllDigits(a) && AllDigits(b)
    ensures AllDigits(a + b)
    ensures ParseDigits(a + b) == ParseDigits(a) * Pow10(|b|) + ParseDigits(b)
    decreases |b|
  {
    AllDigitsAppend(a, b);
    if b == [] {
      assert a + b == a;
    } else {
      var n := |b| - 1;
      var front := b[..n];
      ParseDigitsAppend(a, front);
      assert (a + b)[..|a + b| - 1] == a + front;
      assert (a + b)[|a + b| - 1] == b[n];
      var pa, pf, d := ParseDigits(a), ParseDigits(front), b[n] as int - '0' as int;
      assert ParseDigits(a + b) == ParseDigits(a + front) * 10 + d;
      assert ParseDigits(b) == pf * 10 + d;
      ShiftDecimal(pa, Pow10(n), pf, d);
    }
  }

  lemma AllDigitsAppend(a: string, b: string)
    requires AllDigits(a) && AllDigits(b)
    ensures AllDigits(a + b)
  {
    forall k | 0 <= k < |a + b| ensures IsDigit((a + b)[k]) {
      if k >= |a| {
        assert (a + b)[k] == b[k - |a|];
      }
    }
  }

  /** Appending a digit to `a` shifted by `p` and followed by `f`. */
  lemma ShiftDecimal(a: int, p: int, f: int, d: int)
    ensures (a * p + f) * 10 + d == a * (10 * p) + (f * 10 + d)
  {
    assert (a * p + f) * 10 == a * p * 10 + f * 10;
    assert a * p * 10 == a * (10 * p);
  }

  function Pow10(w: nat): nat {
    if w == 0 then 1 else 10 * Pow10(w - 1)
  }

  /** The text `f"{v}"` produces for a scalar. */
  function Display(v: Value): string {
    match v
    case Null => "None"
    case Bool(b) => if b then "True" else "False"
    case Int(i) => DecimalString(i)
    case Float(text) => text
    case Str(s) => s
  }
}
