/** One value of the desktop .env file: how it is printed and how it is read back. */
module EnvValue {
  import opened Common
  import opened Text
  import opened JsonString

  function Hash(): Code { 35 }
  function Apostrophe(): Code { 39 }

  datatype EnvError = BadQuotedValue | TextAfterQuote | UnclosedQuote | NotAnEntry | BadKey | HasNewline

  // ----- inline comments --------------------------------------------------------------------

  predicate HashAfterBlanks(t: Text) {
    t != [] && (t[0] == Hash() || (IsSpace(t[0]) && HashAfterBlanks(t[1..])))
  }

  /** A comment starts at a blank that leads to a hash sign. */
  predicate CommentAt(t: Text) {
    t != [] && IsSpace(t[0]) && HashAfterBlanks(t[1..])
  }

  predicate HasComment(t: Text) {
    t != [] && (CommentAt(t) || HasComment(t[1..]))
  }

  function CutComment(t: Text): (r: Text)
    ensures |r| <= |t|
    ensures forall c | c in r :: c in t
  {
    if t == [] || CommentAt(t) then [] else [t[0]] + CutComment(t[1..])
  }

  lemma {:induction false} NothingToCut(t: Text)
    requires !HasComment(t)
    ensures CutComment(t) == t
  {
    if t != [] { NothingToCut(t[1..]); }
  }

  // ----- single quotes ----------------------------------------------------------------------

  /** The index of the first unescaped apostrophe. */
  function ClosingQuote(t: Text, escaped: bool): (end: Option<nat>)
    ensures end.Some? ==> end.value < |t|
  {
    if t == [] then None
    else if t[0] == Apostrophe() && !escaped then Some(0)
    else
      match ClosingQuote(t[1..], t[0] == Backslash() && !escaped)
      case None => None
      case Some(i) => Some(i + 1)
  }

  /** Replace each pair of a backslash and `b` by `b`, from left to right. */
  function Unescape(t: Text, b: Code): (r: Text)
    ensures forall c | c in r :: c in t
  {
    if t == [] then []
    else if |t| >= 2 && t[0] == Backslash() && t[1] == b then [b] + Unescape(t[2..], b)
    else [t[0]] + Unescape(t[1..], b)
  }

  // ----- reading and printing ---------------------------------------------------------------

  predicate OnlyComment(t: Text) {
    Strip(t) == [] || Strip(t)[0] == Hash()
  }

  function ParseQuoted(value: Text): Result<Text, EnvError>
    requires value != [] && value[0] == Quote()
  {
    match DecodeBody(value[1..])
    case None => Err(BadQuotedValue)
    case Some(d) => if OnlyComment(d.rest) then Ok(d.value) else Err(TextAfterQuote)
  }

  function ParseSingle(value: Text): Result<Text, EnvError>
    requires value != [] && value[0] == Apostrophe()
  {
    match ClosingQuote(value[1..], false)
    case None => Err(UnclosedQuote)
    case Some(end) =>
      if !OnlyComment(value[1..][end + 1..]) then Err(TextAfterQuote)
      else Ok(Unescape(Unescape(value[1..][..end], Apostrophe()), Backslash()))
  }

  function ParseValue(raw: Text): Result<Text, EnvError> {
    var value := Strip(raw);
    if value == [] then Ok([])
    else if value[0] == Quote() then ParseQuoted(value)
    else if value[0] == Apostrophe() then ParseSingle(value)
    else Ok(RightStrip(CutComment(value)))
  }

  predicate NeedsQuotes(v: Text) {
    || v != Strip(v)
    || HasComment(v)
    || (v != [] && (v[0] == Quote() || v[0] == Apostrophe()))
  }

  function PrintValue(v: Text): Text {
    if NeedsQuotes(v) then Quoted(v) else v
  }

  /** How many blanks stripping takes from the front. */
  function StripStart(t: Text): nat {
    |t| - |LeftStrip(t)|
  }

  lemma StripSlice(t: Text)
    ensures StripStart(t) + |Strip(t)| <= |t|
    ensures Strip(t) == t[StripStart(t)..StripStart(t) + |Strip(t)|]
    ensures forall i | 0 <= i < StripStart(t) :: IsSpace(t[i])
  {
    hide LeftStrip, RightStrip;
    LeadingBlanks(t);
    var a, n := StripStart(t), |Strip(t)|;
    var l := LeftStrip(t);
    forall i | 0 <= i < n ensures t[a + i] == l[i] {
    }
    assert t[a..a + n] == l[..n];
  }

  lemma {:induction false} LeadingBlanks(t: Text)
    ensures forall i | 0 <= i < |t| - |LeftStrip(t)| :: IsSpace(t[i])
  {
    if t != [] && IsSpace(t[0]) {
      LeadingBlanks(t[1..]);
      forall i | 0 <= i < |t| - |LeftStrip(t)| ensures IsSpace(t[i]) {
        if i > 0 { assert t[i] == t[1..][i - 1]; }
      }
    }
  }

  lemma NoBlankNoStrip(t: Text)
    requires t != [] ==> !IsSpace(t[|t| - 1])
    ensures RightStrip(t) == t
  {
  }

  lemma QuotedRoundTrip(v: Text)
    ensures ParseValue(Quoted(v)) == Ok(v)
  {
    hide DecodeBody, Escape, Strip, ParseSingle, RightStrip, CutComment;
    var p := Quoted(v);
    assert Stripped(p);
    StripFixed(p);
    assert p[1..] == Escape(v) + ([Quote()] + []);
    DecodeUndoesEscape(v, []);
    StripFixed([]);
  }

  lemma PlainRoundTrip(v: Text)
    requires !NeedsQuotes(v)
    ensures ParseValue(v) == Ok(v)
  {
    hide DecodeBody, LeftStrip, ClosingQuote, Unescape;
    StripFixed(v);
    NothingToCut(v);
    NoBlankNoStrip(v);
  }

  /** Every value - quotes, backslashes, hash signs, outer blanks, any code point - reads back as it was
      printed. */
  lemma ValueRoundTrip(v: Text)
    ensures ParseValue(PrintValue(v)) == Ok(v)
  {
    hide ParseValue, Quoted;
    if NeedsQuotes(v) {
      QuotedRoundTrip(v);
    } else {
      PlainRoundTrip(v);
    }
  }
}
