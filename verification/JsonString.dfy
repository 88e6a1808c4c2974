/** JSON strings as printed with non-ASCII text kept, and as decoded (section 7 of RFC 8259). */
module JsonString {
  import opened Common
  import opened Text

  function Quote(): Code { 34 }
  function Backslash(): Code { 92 }

  function HexDigit(n: nat): Code
    requires n < 16
  {
    if n < 10 then 48 + n else 87 + n
  }

  function HexValue(c: Code): Option<nat> {
    if 48 <= c <= 57 then Some(c - 48)
    else if 97 <= c <= 102 then Some(c - 87)
    else if 65 <= c <= 70 then Some(c - 55)
    else None
  }

  /** The value of the first four hexadecimal digits. */
  function Hex4(t: Text): (n: Option<nat>)
    ensures n.Some? ==> |t| >= 4 && n.value < 0x10000
  {
    if |t| < 4 then None
    else
      var a, b, c, d := HexValue(t[0]), HexValue(t[1]), HexValue(t[2]), HexValue(t[3]);
      if a.None? || b.None? || c.None? || d.None? then None
      else Some(((a.value * 16 + b.value) * 16 + c.value) * 16 + d.value)
  }

  /** One code point as it stands inside a printed string. */
  function EscapeOne(c: Code): (r: Text)
    ensures r != []
  {
    if c == Quote() || c == Backslash() then [Backslash(), c]
    else if c == 10 then [Backslash(), 110]
    else if c == 13 then [Backslash(), 114]
    else if c == 9 then [Backslash(), 116]
    else if c == 8 then [Backslash(), 98]
    else if c == 12 then [Backslash(), 102]
    else if c < 32 then [Backslash(), 117, 48, 48, HexDigit(c / 16), HexDigit(c % 16)]
    else [c]
  }

  function Escape(t: Text): Text {
    if t == [] then [] else EscapeOne(t[0]) + Escape(t[1..])
  }

  function Quoted(t: Text): Text {
    [Quote()] + Escape(t) + [Quote()]
  }

  function SimpleEscape(c: Code): Option<Code> {
    if c == 34 || c == 92 || c == 47 then Some(c)
    else if c == 98 then Some(8)
    else if c == 102 then Some(12)
    else if c == 110 then Some(10)
    else if c == 114 then Some(13)
    else if c == 116 then Some(9)
    else None
  }

  predicate HighSurrogate(n: nat) { 0xD800 <= n <= 0xDBFF }

  predicate LowSurrogate(n: nat) { 0xDC00 <= n <= 0xDFFF }

  datatype Decoded = Decoded(value: Text, rest: Text)

  function Prepended(c: Code, d: Option<Decoded>): (r: Option<Decoded>)
    ensures r.Some? <==> d.Some?
    ensures d.Some? ==> r == Some(Decoded([c] + d.value.value, d.value.rest))
  {
    match d case None => None case Some(x) => Some(Decoded([c] + x.value, x.rest))
  }

  /** The partner of a high surrogate escape, if the next escape is a low one. */
  function LowAfter(t: Text): Option<nat> {
    if |t| >= 6 && t[0] == Backslash() && t[1] == 117 && Hex4(t[2..]).Some? && LowSurrogate(Hex4(t[2..]).value)
    then Hex4(t[2..]) else None
  }

  /** Decode from just after the opening quote; None when the string is malformed or not closed. */
  function DecodeBody(t: Text): (d: Option<Decoded>)
    ensures d.Some? ==> |d.value.value| + 1 + |d.value.rest| <= |t|
    decreases |t|
  {
    if t == [] then None
    else if t[0] == Quote() then Some(Decoded([], t[1..]))
    else if t[0] < 32 then None
    else if t[0] != Backslash() then Prepended(t[0], DecodeBody(t[1..]))
    else if |t| < 2 then None
    else if t[1] == 117 then
      var h := Hex4(t[2..]);
      if h.None? then None
      else if HighSurrogate(h.value) && LowAfter(t[6..]).Some? then
        Prepended(0x10000 + (h.value - 0xD800) * 0x400 + (LowAfter(t[6..]).value - 0xDC00), DecodeBody(t[12..]))
      else Prepended(h.value, DecodeBody(t[6..]))
    else if SimpleEscape(t[1]).None? then None
    else Prepended(SimpleEscape(t[1]).value, DecodeBody(t[2..]))
  }

  // ----- printing then decoding -------------------------------------------------------------

  lemma HexBack(n: nat)
    requires n < 16
    ensures HexValue(HexDigit(n)) == Some(n)
  {
  }

  lemma EscapeOneDecodes(c: Code, tail: Text)
    ensures DecodeBody(EscapeOne(c) + tail) == Prepended(c, DecodeBody(tail))
  {
    var t := EscapeOne(c) + tail;
    if |EscapeOne(c)| == 6 {
      HexBack(c / 16);
      HexBack(c % 16);
      assert t[2..][0] == 48 && t[2..][1] == 48 && t[2..][2] == HexDigit(c / 16) && t[2..][3] == HexDigit(c % 16);
      assert Hex4(t[2..]) == Some(c);
      assert t[6..] == tail;
    } else if |EscapeOne(c)| == 2 {
      assert t[2..] == tail;
      assert SimpleEscape(t[1]) == Some(c);
    } else {
      assert t[1..] == tail;
    }
  }

  /** A printed string decodes to the text it was printed from, and what follows it is left over. */
  lemma {:induction false} DecodeUndoesEscape(v: Text, rest: Text)
    ensures DecodeBody(Escape(v) + ([Quote()] + rest)) == Some(Decoded(v, rest))
  {
    hide DecodeBody, EscapeOne;
    var closing := [Quote()] + rest;
    if v == [] {
      assert Escape(v) + closing == closing;
      ClosingEnds(rest);
    } else {
      DecodeUndoesEscape(v[1..], rest);
      EscapeOneDecodes(v[0], Escape(v[1..]) + closing);
      Regroup(EscapeOne(v[0]), Escape(v[1..]), closing);
      assert [v[0]] + v[1..] == v;
    }
  }

  lemma ClosingEnds(rest: Text)
    ensures DecodeBody([Quote()] + rest) == Some(Decoded([], rest))
  {
    assert ([Quote()] + rest)[1..] == rest;
  }

  lemma Regroup(a: Text, b: Text, c: Text)
    ensures (a + b) + c == a + (b + c)
  {
  }

  // ----- cutting a printed string -----------------------------------------------------------

  lemma CutEscapeOne(c: Code, j: nat)
    requires j < |EscapeOne(c)|
    ensures DecodeBody(EscapeOne(c)[..j]) == None
  {
    var t := EscapeOne(c)[..j];
    if j >= 2 {
      assert |t[2..]| < 4;
    }
  }

  /** No beginning of a printed string decodes before its closing quote. */
  lemma {:induction false} PrefixDoesNotDecode(v: Text, j: nat)
    requires j <= |Escape(v)|
    ensures DecodeBody(Escape(v)[..j]) == None
  {
    if v != [] {
      var e, more := EscapeOne(v[0]), Escape(v[1..]);
      if j < |e| {
        assert (e + more)[..j] == e[..j];
        CutEscapeOne(v[0], j);
      } else {
        assert (e + more)[..j] == e + more[..j - |e|];
        PrefixDoesNotDecode(v[1..], j - |e|);
        EscapeOneDecodes(v[0], more[..j - |e|]);
      }
    }
  }

  /** Inside a printed string a quote always follows a backslash, and every character is at least a
      blank. */
  lemma {:induction false} EscapedQuotes(v: Text, i: nat)
    requires i < |Escape(v)|
    ensures Escape(v)[i] >= 32
    ensures Escape(v)[i] == Quote() ==> i > 0 && Escape(v)[i - 1] == Backslash()
  {
    var e, more := EscapeOne(v[0]), Escape(v[1..]);
    if i >= |e| {
      EscapedQuotes(v[1..], i - |e|);
      assert (e + more)[i] == more[i - |e|];
      if i > |e| { assert (e + more)[i - 1] == more[i - 1 - |e|]; }
    } else {
      assert (e + more)[i] == e[i];
      if i > 0 { assert (e + more)[i - 1] == e[i - 1]; }
    }
  }

  /** Escaping only adds ASCII. */
  lemma {:induction false} EscapedComesFrom(v: Text, i: nat)
    requires i < |Escape(v)|
    ensures Escape(v)[i] in v || Escape(v)[i] < 128
  {
    var e, more := EscapeOne(v[0]), Escape(v[1..]);
    assert v == [v[0]] + v[1..];
    if i >= |e| {
      EscapedComesFrom(v[1..], i - |e|);
      assert (e + more)[i] == more[i - |e|];
    } else {
      assert (e + more)[i] == e[i];
    }
  }
}
