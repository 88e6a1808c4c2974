/** What the reader makes of lines that no writer of the till printed: comments, exported entries,
    hand-written quotes, and lines that are no entries. */
module EnvReading {
  import opened Common
  import opened Text
  import opened JsonString
  import opened EnvValue
  import opened EnvFile

  // ----- values -----------------------------------------------------------------------------

  /** A blank and a hash sign start a comment. */
  function Remark(c: Text): Text {
    [32, 35] + c
  }

  lemma StripKeepsFront(v: Text, c: Text)
    requires Stripped(v) && v != []
    ensures var s := Strip(v + Remark(c)); v + [32, 35] <= s
  {
    var t := v + Remark(c);
    assert t[0] == v[0];
    assert LeftStrip(t) == t;
    RightStripKeeps(t, |v| + 1);
    assert t[..|v| + 2] == v + [32, 35];
  }

  /** Stripping the end goes no further than the last character that is no blank. */
  lemma {:induction false} RightStripKeeps(t: Text, i: nat)
    requires i < |t| && !IsSpace(t[i])
    ensures t[..i + 1] <= RightStrip(t)
  {
    var n := |t| - 1;
    if IsSpace(t[n]) {
      RightStripKeeps(t[..n], i);
      assert t[..n][..i + 1] == t[..i + 1];
    }
  }

  lemma {:induction false} CutsThere(v: Text, c: Text)
    requires !HasComment(v) && (v != [] ==> !IsSpace(v[|v| - 1]))
    ensures CutComment(v + Remark(c)) == v
  {
    var t := v + Remark(c);
    if v == [] {
      assert t == Remark(c) && t[1..][0] == 35;
    } else {
      assert t[1..] == v[1..] + Remark(c);
      CutsThere(v[1..], c);
      if CommentAt(t) { BlanksOnly(v[1..], c); }
    }
  }

  /** Only blanks before the hash sign: then the text ended in a blank, or held the comment itself. */
  lemma {:induction false} BlanksOnly(v: Text, c: Text)
    requires HashAfterBlanks(v + Remark(c))
    ensures HashAfterBlanks(v) || forall i | 0 <= i < |v| :: IsSpace(v[i])
  {
    if v != [] {
      assert (v + Remark(c))[1..] == v[1..] + Remark(c) && (v + Remark(c))[0] == v[0];
      if v[0] != Hash() { BlanksOnly(v[1..], c); }
    }
  }

  lemma StrippedAfter(v: Text, c: Text)
    requires Stripped(v) && v != []
    ensures exists d: Text :: Strip(v + Remark(c)) == v + Remark(d)
  {
    StripKeepsFront(v, c);
    var s := Strip(v + Remark(c));
    assert s == v + Remark(s[|v| + 2..]);
  }

  lemma RemarkIsComment(c: Text)
    ensures OnlyComment(Remark(c))
  {
    hide LeftStrip, RightStrip;
    var t := Remark(c);
    assert t[1..] == [35] + c;
    BlankFirst(t);
    LeftFixed(t[1..]);
    RightStripKeeps(t[1..], 0);
    assert t[1..][..1] == [35];
  }

  lemma BlankFirst(t: Text)
    requires t != [] && IsSpace(t[0])
    ensures LeftStrip(t) == LeftStrip(t[1..])
  {
  }

  lemma LeftFixed(t: Text)
    requires t != [] && !IsSpace(t[0])
    ensures LeftStrip(t) == t
  {
  }

  /** A value that needs no quotes, with a remark behind it, reads as the value. */
  lemma PlainThenRemark(v: Text, c: Text)
    requires !NeedsQuotes(v) && v != []
    ensures ParseValue(v + Remark(c)) == Ok(v)
  {
    hide LeftStrip, DecodeBody, ClosingQuote, Unescape, HasComment, CutComment, Strip;
    StripFixed(v);
    StrippedAfter(v, c);
    var d: Text :| Strip(v + Remark(c)) == v + Remark(d);
    CutsThere(v, d);
    NoBlankNoStrip(v);
  }

  /** So does a quoted one, whatever is in it. */
  lemma QuotedThenRemark(v: Text, c: Text)
    ensures ParseValue(Quoted(v) + Remark(c)) == Ok(v)
  {
    hide LeftStrip, RightStrip, DecodeBody, ParseSingle, CutComment, Strip, Escape, OnlyComment, Remark;
    var q := Quoted(v);
    StrippedAfter(q, c);
    var d: Text :| Strip(q + Remark(c)) == q + Remark(d);
    assert (q + Remark(d))[1..] == Escape(v) + ([Quote()] + Remark(d));
    DecodeUndoesEscape(v, Remark(d));
    RemarkIsComment(d);
  }

  /** Anything else behind a quoted value is an error. */
  lemma QuotedThenText(v: Text, t: Text)
    requires Stripped(t) && t != [] && t[0] != Hash()
    ensures ParseValue(Quoted(v) + t) == Err(TextAfterQuote)
  {
    hide LeftStrip, RightStrip, DecodeBody, ParseSingle, CutComment, Strip, Escape;
    var q := Quoted(v);
    assert Stripped(q + t);
    StripFixed(q + t);
    StripFixed(t);
    assert (q + t)[1..] == Escape(v) + ([Quote()] + t);
    DecodeUndoesEscape(v, t);
  }

  // ----- single quotes ----------------------------------------------------------------------

  predicate Simple(v: Text) {
    forall c | c in v :: c != Apostrophe() && c != Backslash()
  }

  lemma {:induction false} ClosesAt(v: Text, rest: Text)
    requires Simple(v)
    ensures ClosingQuote(v + [Apostrophe()] + rest, false) == Some(|v|)
  {
    var t := v + [Apostrophe()] + rest;
    if v != [] {
      assert t[1..] == v[1..] + [Apostrophe()] + rest && t[0] == v[0] && v[0] in v;
      assert forall c | c in v[1..] :: c in v;
      ClosesAt(v[1..], rest);
    }
  }

  lemma {:induction false} NothingEscaped(v: Text, b: Code)
    requires Simple(v)
    ensures Unescape(v, b) == v
  {
    if v != [] {
      assert v[0] in v && forall c | c in v[1..] :: c in v;
      NothingEscaped(v[1..], b);
    }
  }

  /** A text without apostrophe and backslash reads as it stands between single quotes. */
  lemma SingleQuoted(v: Text)
    requires Simple(v)
    ensures ParseValue([Apostrophe()] + v + [Apostrophe()]) == Ok(v)
  {
    hide ClosingQuote, Unescape, Strip, ParseQuoted, CutComment, Simple;
    var p := [Apostrophe()] + v + [Apostrophe()];
    assert Stripped(p);
    StripFixed(p);
    StripFixed([]);
    assert p[1..] == v + [Apostrophe()] + [];
    ClosesAt(v, []);
    NothingEscaped(v, Apostrophe());
    NothingEscaped(v, Backslash());
    assert p[1..][..|v|] == v && p[1..][|v| + 1..] == [];
  }

  // ----- lines ------------------------------------------------------------------------------

  lemma SameBare(a: Text, b: Text)
    requires Strip(a) != [] && Strip(b) != [] && Strip(a)[0] != Hash() && Strip(b)[0] != Hash()
    requires WithoutExport(Strip(a)) == WithoutExport(Strip(b))
    ensures LineEntry(a) == LineEntry(b)
  {
    hide Strip, WithoutExport, FirstEquals, LegalKey, ParseValue;
  }

  lemma ExportGoes(e: Text)
    requires e != [] && !IsSpace(e[0]) && !IsSpace(e[|e| - 1])
    ensures var line := ExportPrefix() + e; Strip(line) == line && WithoutExport(line) == e && line[0] != Hash()
  {
    hide LeftStrip, RightStrip, Strip;
    var line := ExportPrefix() + e;
    assert line[0] == 101 && line[|line| - 1] == e[|e| - 1];
    StripFixed(line);
    assert line[7..] == e && line[..7] == ExportPrefix();
    LeftFixed(e);
  }

  /** An entry may be written with the shell's export before it. */
  lemma ExportedLine(k: Text, v: Text)
    requires LegalKey(k)
    ensures LineEntry(ExportPrefix() + EntryLine(k, v)) == Ok(Some(Entry(k, v)))
  {
    hide LegalKey, Strip, EntryLine, LineEntry, WithoutExport, ExportPrefix;
    var e := EntryLine(k, v);
    EntrySolid(k, v);
    StripFixed(e);
    ExportGoes(e);
    NotExported(k, v);
    LineRoundTrip(k, v);
    EntryStart(k, v);
    SameBare(ExportPrefix() + e, e);
  }

  lemma NotExported(k: Text, v: Text)
    requires LegalKey(k)
    ensures WithoutExport(EntryLine(k, v)) == EntryLine(k, v)
  {
    hide PrintValue, LegalKey, LeftStrip;
    NotExport(k, PrintValue(v));
    assert EntryLine(k, v) == k + ([Equals()] + PrintValue(v));
  }

  lemma EntryStart(k: Text, v: Text)
    requires LegalKey(k)
    ensures EntryLine(k, v) != [] && EntryLine(k, v)[0] != Hash()
  {
    hide PrintValue, LegalKey;
    KeyCharsAreSolid(k);
    KeyNotEmpty(k);
    assert EntryLine(k, v)[0] == k[0];
  }

  lemma EntrySolid(k: Text, v: Text)
    requires LegalKey(k)
    ensures var e := EntryLine(k, v); e != [] && !IsSpace(e[0]) && !IsSpace(e[|e| - 1])
  {
    hide PrintValue;
    PrintedIsStripped(v);
    KeyCharsAreSolid(k);
    KeyNotEmpty(k);
    var e := EntryLine(k, v);
    assert e[0] == k[0];
  }

  /** A letter or an underscore, then letters, digits and underscores. */
  predicate Names(k: Text) {
    k != [] && forall i | 0 <= i < |k| ::
      65 <= k[i] <= 90 || k[i] == 95 || 97 <= k[i] <= 122 || (i > 0 && 48 <= k[i] <= 57)
  }

  lemma NamesIff(k: Text)
    ensures Names(k) <==> LegalKey(k)
  {
  }

  /** The line without its outer blanks and the shell's export. */
  function Bare(t: Text): Text {
    var line := Strip(t);
    if |line| >= 7 && line[..7] == ExportPrefix() then LeftStrip(line[7..]) else line
  }

  /** A line is nothing exactly if it is blank or a comment. */
  lemma NothingIff(t: Text)
    ensures LineEntry(t) == Ok(None) <==> Strip(t) == [] || Strip(t)[0] == 35
  {
    hide Strip, ParseValue, LeftStrip, LegalKey;
  }

  /** Any other line needs an equals sign, and a name before the first one. */
  lemma LineReads(t: Text, i: nat)
    requires Strip(t) != [] && Strip(t)[0] != 35
    ensures 61 !in Bare(t) ==> LineEntry(t) == Err(NotAnEntry)
    ensures i < |Bare(t)| && Bare(t)[i] == 61 && 61 !in Bare(t)[..i] ==>
      var key := Strip(Bare(t)[..i]);
      LineEntry(t)
      == if !Names(key) then Err(BadKey)
         else match ParseValue(Bare(t)[i + 1..]) case Err(e) => Err(e) case Ok(v) => Ok(Some(Entry(key, v)))
  {
    hide Strip, ParseValue, LeftStrip, LegalKey, Names, FirstEquals;
    var rest := Bare(t);
    assert rest == WithoutExport(Strip(t));
    if i < |rest| && rest[i] == 61 && 61 !in rest[..i] {
      assert forall j | 0 <= j < i :: rest[j] == rest[..i][j];
      FirstEqualsIs(rest, i);
      NamesIff(Strip(rest[..i]));
    }
  }

  // ----- the guard --------------------------------------------------------------------------

  /** Nothing is written exactly if some value holds a line feed or a carriage return. */
  lemma RefusedIff(header: seq<Text>, m: Settings, keys: seq<Text>)
    requires forall k | k in keys :: k in m
    ensures WriteConfig(header, m, keys) ==
      if exists k :: k in keys && (10 in m[k] || 13 in m[k]) then Err(HasNewline) else Ok(Render(header, m, keys))
  {
    hide Render;
  }
}
