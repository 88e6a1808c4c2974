/** The exact condition under which a written file reads back: no printed value holds a line break. */
module EnvBreaks {
  import opened Common
  import opened Text
  import opened JsonString
  import opened EnvValue
  import opened EnvFile

  lemma SliceOfSlice(t: Text, a: int, b: int, x: int, y: int)
    requires 0 <= a <= b <= |t| && 0 <= x <= y <= b - a
    ensures t[a..b][x..y] == t[a + x..a + y]
  {
    var u, v := t[a..b][x..y], t[a + x..a + y];
    assert |u| == |v|;
    forall i | 0 <= i < |u| ensures u[i] == v[i] {
      assert u[i] == t[a..b][x + i];
    }
  }

  lemma SliceAt(t: Text, a: int, b: int, i: int)
    requires 0 <= a <= b <= |t| && 0 <= i < b - a
    ensures t[a..b][i] == t[a + i]
  {
  }

  // ----- pieces of a line -------------------------------------------------------------------

  /** `l` is `t[a..b]`, and starts the text or follows a break. */
  predicate Piece(l: Text, t: Text, a: int, b: int) {
    0 <= a <= b <= |t| && l == t[a..b] && (a == 0 || IsBreak(t[a - 1]))
  }

  lemma PieceShifts(l: Text, rest: Text, t: Text, off: nat, a: int, b: int)
    requires 0 < off <= |t| && rest == t[off..] && IsBreak(t[off - 1]) && Piece(l, rest, a, b)
    ensures Piece(l, t, a + off, b + off)
  {
    hide IsBreak;
    if a > 0 { assert rest[a - 1] == t[a + off - 1]; }
  }

  /** Each line of a text is a slice of it without breaks; a line that does not start the text follows a
      break. */
  lemma {:induction false} LinesArePieces(t: Text, l: Text)
    requires l in SplitLines(t)
    ensures !HasBreak(l)
    ensures exists a, b :: Piece(l, t, a, b)
    decreases |t|
  {
    hide BreakAt, IsBreak;
    var at := BreakAt(t, 0);
    if at == |t| {
      assert Piece(l, t, 0, |t|);
    } else if l == t[..at] {
      assert Piece(l, t, 0, at);
    } else {
      var off := at + BreakWidth(t, at);
      LinesArePieces(t[off..], l);
      var a, b :| Piece(l, t[off..], a, b);
      LastOfBreak(t, at);
      PieceShifts(l, t[off..], t, off, a, b);
    }
  }

  lemma LastOfBreak(t: Text, at: nat)
    requires at < |t| && IsBreak(t[at])
    ensures IsBreak(t[at + BreakWidth(t, at) - 1])
  {
  }

  // ----- where values come from -------------------------------------------------------------

  /** A value read without double quotes holds only characters of its line. */
  lemma BreakNeedsQuotes(raw: Text)
    requires ParseValue(raw).Ok? && HasBreak(ParseValue(raw).value) && !HasBreak(raw)
    ensures Strip(raw) != [] && Strip(raw)[0] == Quote()
    ensures |ParseValue(raw).value| + 2 <= |raw|
  {
    hide IsBreak, DecodeBody, LeftStrip, RightStrip, ClosingQuote;
    var value := Strip(raw);
    var v := ParseValue(raw).value;
    StripKeeps(raw);
    var i :| 0 <= i < |v| && IsBreak(v[i]);
    if value != [] && value[0] == Quote() {
    } else if value != [] && value[0] == Apostrophe() {
      SingleKeeps(value, v[i]);
    } else if value != [] {
      RightStripKeeps(CutComment(value), v[i]);
    }
  }

  lemma SingleKeeps(value: Text, c: Code)
    requires value != [] && value[0] == Apostrophe() && ParseSingle(value).Ok? && c in ParseSingle(value).value
    ensures c in value
  {
    hide ClosingQuote, OnlyComment;
    var inner := value[1..][..ClosingQuote(value[1..], false).value];
    var j :| 0 <= j < |inner| && inner[j] == c;
    assert value[j + 1] == c;
  }

  lemma StripKeeps(t: Text)
    ensures |Strip(t)| <= |t|
    ensures !HasBreak(t) ==> !HasBreak(Strip(t))
  {
    hide Strip, StripStart, IsBreak;
    StripSlice(t);
    var a := StripStart(t);
    forall i | 0 <= i < |Strip(t)| ensures Strip(t)[i] == t[a + i] {
      SliceAt(t, a, a + |Strip(t)|, i);
    }
  }

  lemma RightStripKeeps(t: Text, c: Code)
    requires c in RightStrip(t)
    ensures c in t
  {
    hide RightStrip;
    var i :| 0 <= i < |RightStrip(t)| && RightStrip(t)[i] == c;
    assert t[i] == c;
  }

  /** What an entry line's value is parsed from. */
  lemma RawOf(l: Text)
    requires LineEntry(l).Ok? && LineEntry(l).value.Some?
    ensures var rest := WithoutExport(Strip(l));
      && FirstEquals(rest).Some?
      && ParseValue(rest[FirstEquals(rest).value + 1..]) == Ok(LineEntry(l).value.value.value)
  {
    hide ParseValue, LegalKey, FirstEquals, WithoutExport, Strip;
  }

  /** `l[x..y]` stands just after an equals sign and reads as `v`. */
  predicate RawAt(l: Text, x: int, y: int, v: Text) {
    0 < x <= y <= |l| && l[x - 1] == Equals() && ParseValue(l[x..y]) == Ok(v)
  }

  lemma RawSlice(l: Text)
    requires LineEntry(l).Ok? && LineEntry(l).value.Some?
    ensures exists x, y :: RawAt(l, x, y, LineEntry(l).value.value.value)
  {
    hide LineEntry, ParseValue, FirstEquals, WithoutExport, Strip, StripStart, IsSpace, Equals, RawAt;
    RawOf(l);
    StripSlice(l);
    var line, rest := Strip(l), WithoutExport(Strip(l));
    var a, b := StripStart(l), StripStart(l) + |line|;
    ExportSlice(line);
    RawFrom(l, a, b, line, |line| - |rest|, rest, FirstEquals(rest).value, LineEntry(l).value.value.value);
  }

  lemma RawFrom(l: Text, a: int, b: int, line: Text, s: int, rest: Text, at: int, v: Text)
    requires 0 <= a <= b <= |l| && line == l[a..b] && 0 <= s <= |line| && rest == line[s..] && 0 <= at < |rest|
    requires rest[at] == Equals() && ParseValue(rest[at + 1..]) == Ok(v)
    ensures RawAt(l, a + s + at + 1, b, v)
  {
    hide ParseValue, Equals;
    AfterEquals(l, a, b, line, s, rest, at);
  }

  lemma AfterEquals(l: Text, a: int, b: int, line: Text, s: int, rest: Text, at: int)
    requires 0 <= a <= b <= |l| && line == l[a..b] && 0 <= s <= |line| && rest == line[s..] && 0 <= at < |rest|
    ensures rest[at + 1..] == l[a + s + at + 1..b] && l[a + s + at] == rest[at]
  {
    assert rest == line[s..|line|] && rest[at + 1..] == rest[at + 1..|rest|];
    SliceOfSlice(line, s, |line|, at + 1, |rest|);
    SliceOfSlice(l, a, b, s + at + 1, |line|);
    SliceAt(line, s, |line|, at);
    SliceAt(l, a, b, s + at);
  }

  lemma ExportSlice(t: Text)
    ensures |WithoutExport(t)| <= |t| && WithoutExport(t) == t[|t| - |WithoutExport(t)|..]
  {
    hide LeftStrip;
    if ExportPrefix() <= t {
      var l := LeftStrip(t[7..]);
      assert l == t[7..][|t[7..]| - |l|..];
    } else {
      assert t[0..] == t;
    }
  }

  /** A break in a printed value is a break of the value itself. */
  lemma PrintedBreak(v: Text)
    requires HasBreak(PrintValue(v))
    ensures HasBreak(v)
  {
    if NeedsQuotes(v) {
      hide Escape, NeedsQuotes;
      var p := Quoted(v);
      var i :| 0 <= i < |p| && IsBreak(p[i]);
      QuotedAt(v, i);
      EscapedComesFrom(v, i - 1);
      EscapedQuotes(v, i - 1);
      var j :| 0 <= j < |v| && v[j] == p[i];
    }
  }

  lemma QuotedAt(v: Text, i: nat)
    requires i < |Quoted(v)|
    ensures |Quoted(v)| == |Escape(v)| + 2
    ensures Quoted(v)[i] == if i == 0 || i == |Escape(v)| + 1 then Quote() else Escape(v)[i - 1]
  {
    hide Escape;
  }

  // ----- no piece of a broken line restores the value ---------------------------------------

  lemma EntryLineSize(k: Text, v: Text)
    ensures |EntryLine(k, v)| == |k| + 1 + |PrintValue(v)|
  {
    hide PrintValue;
  }

  lemma LineFeedIsBreak()
    ensures IsBreak(10) && !IsBreak(Equals())
  {
  }

  /** A piece of a broken entry line stops before the line does, or starts after the key. */
  lemma PieceIsProper(k: Text, v: Text, l: Text, a: int, b: int)
    requires LegalKey(k) && HasBreak(PrintValue(v)) && !HasBreak(l) && l != []
    requires Piece(l, EntryLine(k, v) + [10], a, b)
    ensures a == 0 || a > |k| + 1
    ensures b <= |EntryLine(k, v)|
    ensures a == 0 ==> b < |EntryLine(k, v)|
  {
    hide IsBreak, PrintValue, LegalKey, EntryLine, Equals;
    var e, p := EntryLine(k, v), PrintValue(v);
    var t := e + [10];
    EntryLineSize(k, v);
    KeyCharsAreSolid(k);
    LineFeedIsBreak();
    if 0 < a <= |k| + 1 {
      EntryLineAt(k, v, a - 1);
    }
    var i :| 0 <= i < |p| && IsBreak(p[i]);
    EntryLineAt(k, v, |k| + 1 + i);
    assert t[|k| + 1 + i] == p[i];
    assert l[|l| - 1] == t[b - 1];
    if a <= |k| + 1 + i < b {
      assert l[|k| + 1 + i - a] == p[i];
    }
  }

  /** A plain value is longer than anything a piece of its line can hold. */
  lemma PlainPiece(k: Text, v: Text, a: nat, b: nat, x: nat, y: nat)
    requires LegalKey(k) && !NeedsQuotes(v) && b <= |EntryLine(k, v)| && a + y <= b && 0 < x <= y
    requires a == 0 || a > |k| + 1
    requires a == 0 ==> EntryLine(k, v)[x - 1] == Equals() && b < |EntryLine(k, v)|
    ensures y - x < |v|
  {
    hide NeedsQuotes, LegalKey, Equals, EntryLine;
    KeyCharsAreSolid(k);
    EntryLineSize(k, v);
    EntryLineAt(k, v, x - 1);
  }

  /** Where the raw value's first solid character stands in the entry line. */
  lemma RawStarts(t: Text, from: nat, to: nat)
    requires 0 < from <= to <= |t| && t[from - 1] == Equals() && Strip(t[from..to]) != []
    ensures exists c, d :: 0 < c < d <= to && Strip(t[from..to]) == t[c..d] && (t[c - 1] == Equals() || IsSpace(t[c - 1]))
  {
    hide IsSpace, Strip, StripStart;
    var raw := t[from..to];
    StripSlice(raw);
    var a, b := StripStart(raw), StripStart(raw) + |Strip(raw)|;
    SliceOfSlice(t, from, to, a, b);
    if a > 0 { SliceAt(t, from, to, a - 1); }
    assert 0 < from + a < from + b <= to;
  }

  /** Where a double quote can stand in a quoted entry line. */
  lemma QuoteSpots(k: Text, v: Text, c: nat)
    requires LegalKey(k) && NeedsQuotes(v) && 0 < c < |EntryLine(k, v)| && EntryLine(k, v)[c] == Quote()
    requires EntryLine(k, v)[c - 1] == Equals() || IsSpace(EntryLine(k, v)[c - 1])
    ensures c == |k| + 1 || c == |EntryLine(k, v)| - 1
  {
    hide NeedsQuotes, LegalKey, EntryLine, Quoted, Escape, IsSpace;
    EntryLineSize(k, v);
    EntryLineAt(k, v, c);
    EntryLineAt(k, v, c - 1);
    NotBackslash(EntryLine(k, v)[c - 1]);
    EqualsIsNoQuote();
    if c < |k| {
      KeyIsNoQuote(k, c);
    } else if c > |k| + 1 {
      var q := c - |k| - 1;
      QuotedAt(v, q);
      QuotedAt(v, q - 1);
      if q <= |Escape(v)| {
        EscapedQuotes(v, q - 1);
      }
    }
  }

  /** A piece of a quoted line never reads as a quoted value: the string is cut, or it is a lone quote. */
  lemma QuotedPiece(k: Text, v: Text, a: nat, b: nat, x: nat, y: nat)
    requires LegalKey(k) && NeedsQuotes(v) && a + y <= b <= |EntryLine(k, v)| && 0 < x <= y
    requires a == 0 || a > |k| + 1
    requires EntryLine(k, v)[a + x - 1] == Equals()
    requires a == 0 ==> b < |EntryLine(k, v)|
    requires var raw := EntryLine(k, v)[a + x..a + y]; Strip(raw) != [] && Strip(raw)[0] == Quote()
    ensures ParseValue(EntryLine(k, v)[a + x..a + y]).Err?
  {
    hide IsSpace, ParseValue, NeedsQuotes, LegalKey, EntryLine, Escape, DecodeBody, Strip;
    var t := EntryLine(k, v);
    var raw := t[a + x..a + y];
    RawStarts(t, a + x, a + y);
    var c, d :| 0 < c < d <= a + y && Strip(raw) == t[c..d] && (t[c - 1] == Equals() || IsSpace(t[c - 1]));
    assert t[c] == Strip(raw)[0];
    QuoteSpots(k, v, c);
    if c == |t| - 1 {
      assert Strip(raw)[1..] == [];
      LoneQuote(raw);
    } else {
      FirstPiece(k, v, c, d);
      CutQuote(raw, v, d - c - 1);
    }
  }

  lemma LoneQuote(raw: Text)
    requires Strip(raw) != [] && Strip(raw)[0] == Quote() && Strip(raw)[1..] == []
    ensures ParseValue(raw).Err?
  {
    hide Strip;
  }

  lemma CutQuote(raw: Text, v: Text, j: nat)
    requires Strip(raw) != [] && Strip(raw)[0] == Quote() && j <= |Escape(v)| && Strip(raw)[1..] == Escape(v)[..j]
    ensures ParseValue(raw).Err?
  {
    hide Strip, Escape, DecodeBody;
    PrefixDoesNotDecode(v, j);
  }

  lemma FirstPiece(k: Text, v: Text, from: nat, to: nat)
    requires NeedsQuotes(v) && from == |k| + 1 < to < |EntryLine(k, v)|
    ensures to - from - 1 <= |Escape(v)| && EntryLine(k, v)[from..to][1..] == Escape(v)[..to - from - 1]
  {
    hide NeedsQuotes, Escape;
    var t := EntryLine(k, v);
    forall i | 0 <= i < to - from - 1 ensures t[from + 1 + i] == Escape(v)[i] {
      assert t[from + 1 + i] == Quoted(v)[i + 1];
    }
  }

  lemma NotBackslash(c: Code)
    requires c == Equals() || IsSpace(c)
    ensures c != Backslash() && c != Quote()
  {
  }

  lemma KeyIsNoQuote(k: Text, i: nat)
    requires LegalKey(k) && i < |k|
    ensures k[i] != Quote()
  {
  }

  lemma EqualsIsNoQuote()
    ensures Equals() != Quote()
  {
  }

  /** What a piece of a broken entry line reads as holds fewer characters than the value that broke it, if
      it holds a break at all. */
  lemma PieceOfBroken(k: Text, v: Text, l: Text)
    requires LegalKey(k) && HasBreak(PrintValue(v))
    requires l in SplitLines(EntryLine(k, v) + [10]) && LineEntry(l).Ok? && LineEntry(l).value.Some?
    requires HasBreak(LineEntry(l).value.value.value)
    ensures |LineEntry(l).value.value.value| < |v|
  {
    hide HasBreak, LineEntry, ParseValue, SplitLines, LegalKey, NeedsQuotes, EntryLine, Strip, PrintValue, Equals, IsBreak;
    var e := EntryLine(k, v);
    LinesArePieces(e + [10], l);
    var a, b :| Piece(l, e + [10], a, b);
    RawSlice(l);
    var x, y :| RawAt(l, x, y, LineEntry(l).value.value.value);
    SliceHasNoBreak(l, x, y);
    BreakNeedsQuotes(l[x..y]);
    PieceIsProper(k, v, l, a, b);
    InsideEntry(l, e, a, b, x, y);
    if !NeedsQuotes(v) {
      PlainPiece(k, v, a, b, x, y);
    } else {
      QuotedPiece(k, v, a, b, x, y);
    }
  }

  lemma InsideEntry(l: Text, e: Text, a: int, b: int, x: int, y: int)
    requires 0 <= a <= b <= |e| && l == (e + [10])[a..b] && 0 < x <= y <= |l|
    ensures l[x..y] == e[a + x..a + y] && l[x - 1] == e[a + x - 1] && a + y <= b
  {
    assert (e + [10])[a..b] == e[a..b];
    SliceOfSlice(e, a, b, x, y);
    SliceAt(e, a, b, x - 1);
  }

  lemma SliceHasNoBreak(l: Text, x: int, y: int)
    requires 0 <= x <= y <= |l| && !HasBreak(l)
    ensures !HasBreak(l[x..y])
  {
    forall i | 0 <= i < y - x ensures !IsBreak(l[x..y][i]) {
      assert l[x..y][i] == l[x + i];
    }
  }
}
