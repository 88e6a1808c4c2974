/** Python text: sequences of code points, with the few string operations the till uses. */
module Text {

  type Code = c: int | 0 <= c < 0x110000
  type Text = seq<Code>

  /** A literal as text. */
  function Lit(s: string): (t: Text)
    ensures |t| == |s|
  {
    seq(|s|, i requires 0 <= i < |s| => s[i] as int)
  }

  /** str.isspace on one code point; the same class as the regular expression \s. */
  predicate IsSpace(c: Code) {
    || 9 <= c <= 13
    || 28 <= c <= 32
    || c == 0x85 || c == 0xA0 || c == 0x1680
    || 0x2000 <= c <= 0x200A
    || c == 0x2028 || c == 0x2029 || c == 0x202F || c == 0x205F || c == 0x3000
  }

  function LeftStrip(t: Text): (r: Text)
    ensures |r| <= |t|
    ensures r == t[|t| - |r|..]
    ensures r != [] ==> !IsSpace(r[0])
  {
    if t == [] then []
    else if IsSpace(t[0]) then LeftStrip(t[1..])
    else t
  }

  function RightStrip(t: Text): (r: Text)
    ensures r <= t
    ensures r != [] ==> !IsSpace(r[|r| - 1])
  {
    if t == [] then []
    else if IsSpace(t[|t| - 1]) then RightStrip(t[..|t| - 1])
    else t
  }

  function Strip(t: Text): (r: Text)
    ensures |r| <= |t|
    ensures Stripped(r)
  {
    var l := LeftStrip(t);
    var r := RightStrip(l);
    r
  }

  /** No blank at either end. */
  predicate Stripped(t: Text) {
    t != [] ==> !IsSpace(t[0]) && !IsSpace(t[|t| - 1])
  }

  lemma StripFixed(t: Text)
    ensures Strip(t) == t <==> Stripped(t)
  {
  }

  /** str(n) for a natural number. */
  function Decimal(n: nat): (t: Text)
    ensures t != []
    ensures forall i | 0 <= i < |t| :: 48 <= t[i] <= 57
  {
    var digit := [48 + n % 10];
    if n < 10 then digit else Decimal(n / 10) + digit
  }

  /** str(n) for any integer. */
  function Integer(n: int): Text {
    if n < 0 then [45] + Decimal(-n) else Decimal(n)
  }

  lemma {:induction false} DecimalInjective(a: nat, b: nat)
    requires Decimal(a) == Decimal(b)
    ensures a == b
  {
    var s, t := Decimal(a), Decimal(b);
    assert s[|s| - 1] == 48 + a % 10 && t[|t| - 1] == 48 + b % 10;
    if a >= 10 && b >= 10 {
      assert s[..|s| - 1] == Decimal(a / 10) && t[..|t| - 1] == Decimal(b / 10);
      DecimalInjective(a / 10, b / 10);
    }
  }
}
