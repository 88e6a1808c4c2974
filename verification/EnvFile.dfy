/** The desktop .env file: its lines, its entries, and writing the form's values into it. */
module EnvFile {
  import opened Common
  import opened Text
  import opened JsonString
  import opened EnvValue

  // ----- lines ------------------------------------------------------------------------------

  /** The characters at which str.splitlines ends a line. */
  predicate IsBreak(c: Code) {
    || 10 <= c <= 13
    || 28 <= c <= 30
    || c == 0x85 || c == 0x2028 || c == 0x2029
  }

  predicate HasBreak(t: Text) {
    exists i :: 0 <= i < |t| && IsBreak(t[i])
  }

  function BreakAt(t: Text, from: nat): (at: nat)
    requires from <= |t|
    ensures from <= at <= |t|
    ensures forall i | from <= i < at :: !IsBreak(t[i])
    ensures at < |t| ==> IsBreak(t[at])
    decreases |t| - from
  {
    if from == |t| || IsBreak(t[from]) then from else BreakAt(t, from + 1)
  }

  /** A carriage return and a line feed end one line together. */
  function BreakWidth(t: Text, at: nat): (w: nat)
    requires at < |t|
    ensures 1 <= w <= 2 && at + w <= |t|
  {
    if t[at] == 13 && at + 1 < |t| && t[at + 1] == 10 then 2 else 1
  }

  function SplitLines(t: Text): seq<Text>
    decreases |t|
  {
    if t == [] then []
    else
      var at := BreakAt(t, 0);
      if at == |t| then [t] else [t[..at]] + SplitLines(t[at + BreakWidth(t, at)..])
  }

  // ----- entries ----------------------------------------------------------------------------

  predicate KeyChar(c: Code) {
    65 <= c <= 90 || c == 95 || 97 <= c <= 122 || 48 <= c <= 57
  }

  /** A letter or underscore, then letters, digits and underscores. */
  predicate LegalKey(k: Text) {
    k != [] && !(48 <= k[0] <= 57) && forall i | 0 <= i < |k| :: KeyChar(k[i])
  }

  function Equals(): Code { 61 }

  function FirstEquals(t: Text): (at: Option<nat>)
    ensures at.Some? ==> at.value < |t| && t[at.value] == Equals()
    ensures at.Some? ==> forall i | 0 <= i < at.value :: t[i] != Equals()
    ensures at.None? ==> forall i | 0 <= i < |t| :: t[i] != Equals()
  {
    if t == [] then None
    else if t[0] == Equals() then Some(0)
    else match FirstEquals(t[1..]) case None => None case Some(i) => Some(i + 1)
  }

  function ExportPrefix(): Text { [101, 120, 112, 111, 114, 116, 32] }

  function WithoutExport(t: Text): Text {
    if ExportPrefix() <= t then LeftStrip(t[7..]) else t
  }

  datatype Entry = Entry(key: Text, value: Text)

  /** One line: nothing, an entry, or an error. */
  function LineEntry(original: Text): Result<Option<Entry>, EnvError> {
    var line := Strip(original);
    if line == [] || line[0] == Hash() then Ok(None)
    else
      var l := WithoutExport(line);
      match FirstEquals(l)
      case None => Err(NotAnEntry)
      case Some(at) =>
        var key := Strip(l[..at]);
        if !LegalKey(key) then Err(BadKey)
        else
          match ParseValue(l[at + 1..])
          case Err(e) => Err(e)
          case Ok(v) => Ok(Some(Entry(key, v)))
  }

  type Settings = map<Text, Text>

  function ParseLines(lines: seq<Text>): Result<Settings, EnvError> {
    if lines == [] then Ok(map[])
    else
      match ParseLines(lines[..|lines| - 1])
      case Err(e) => Err(e)
      case Ok(data) =>
        match LineEntry(lines[|lines| - 1])
        case Err(e) => Err(e)
        case Ok(None) => Ok(data)
        case Ok(Some(entry)) => Ok(data[entry.key := entry.value])
  }

  function ParseText(t: Text): Result<Settings, EnvError> {
    ParseLines(SplitLines(t))
  }

  // ----- writing ----------------------------------------------------------------------------

  function EntryLine(k: Text, v: Text): Text {
    k + [Equals()] + PrintValue(v)
  }

  /** A line that carries no entry: nothing, or a comment. */
  predicate Inert(line: Text) {
    Stripped(line) && !HasBreak(line) && (line != [] ==> line[0] == Hash())
  }

  /** The file: the generated comment lines, then one line for each key. */
  function Render(header: seq<Text>, m: Settings, keys: seq<Text>): Text
    requires forall k | k in keys :: k in m
  {
    if keys == [] then Joined(header)
    else
      var k := keys[|keys| - 1];
      Render(header, m, keys[..|keys| - 1]) + (EntryLine(k, m[k]) + [10])
  }

  function Joined(lines: seq<Text>): Text {
    if lines == [] then [] else Joined(lines[..|lines| - 1]) + (lines[|lines| - 1] + [10])
  }

  datatype Field = Field(key: Text, default: Text)

  /** Form values over existing settings; a field nobody gives keeps its value or gets its default. */
  function Merged(existing: Settings, values: Settings, fields: seq<Field>): Settings {
    if fields == [] then existing
    else
      var rest, f := Merged(existing, values, fields[..|fields| - 1]), fields[|fields| - 1];
      if f.key in values then rest[f.key := values[f.key]]
      else if f.key in rest then rest
      else rest[f.key := f.default]
  }

  /** The guard: only a line feed or a carriage return is refused. */
  predicate Refused(v: Text) {
    10 in v || 13 in v
  }

  function WriteConfig(header: seq<Text>, m: Settings, keys: seq<Text>): Result<Text, EnvError>
    requires forall k | k in keys :: k in m
  {
    if exists k :: k in keys && Refused(m[k]) then Err(HasNewline) else Ok(Render(header, m, keys))
  }

  // ----- splitting what was joined ----------------------------------------------------------

  lemma BreakAtIs(t: Text, at: nat)
    requires at <= |t| && (forall i | 0 <= i < at :: !IsBreak(t[i])) && (at < |t| ==> IsBreak(t[at]))
    ensures BreakAt(t, 0) == at
  {
    hide IsBreak;
  }

  /** Text that ends in a line feed splits apart from what follows it. */
  lemma {:induction false} SplitJoined(x: Text, y: Text)
    requires x != [] && x[|x| - 1] == 10
    ensures SplitLines(x + y) == SplitLines(x) + SplitLines(y)
    decreases |x|
  {
    hide BreakAt;
    var t := x + y;
    var at := BreakAt(x, 0);
    assert IsBreak(x[|x| - 1]);
    assert at < |x|;
    forall i | 0 <= i <= at ensures t[i] == x[i] {}
    BreakAtIs(t, at);
    assert BreakWidth(t, at) == BreakWidth(x, at);
    var w := BreakWidth(x, at);
    assert t[..at] == x[..at];
    assert t[at + w..] == x[at + w..] + y;
    if at + w < |x| {
      assert x[at + w..][|x[at + w..]| - 1] == x[|x| - 1];
      SplitJoined(x[at + w..], y);
      ThreeSeqs([x[..at]], SplitLines(x[at + w..]), SplitLines(y));
    } else {
      assert x[at + w..] == [] && t[at + w..] == y;
      assert [x[..at]] + [] == [x[..at]];
    }
  }

  lemma ThreeSeqs(a: seq<Text>, b: seq<Text>, c: seq<Text>)
    ensures (a + b) + c == a + (b + c)
  {
  }

  /** A line without breaks is one line. */
  lemma WholeLine(line: Text)
    requires !HasBreak(line)
    ensures SplitLines(line + [10]) == [line]
  {
    var t := line + [10];
    forall i | 0 <= i < |line| ensures !IsBreak(t[i]) {
      assert t[i] == line[i];
    }
    BreakAtIs(t, |line|);
    assert t[..|line|] == line && t[|line| + 1..] == [];
  }

  lemma InertLine(line: Text)
    requires Inert(line)
    ensures LineEntry(line) == Ok(None)
  {
    hide ParseValue, LegalKey, FirstEquals, WithoutExport, LeftStrip, RightStrip;
    StripFixed(line);
  }

  /** Text that ends in a line feed, or nothing. */
  predicate Closed(t: Text) {
    t != [] ==> t[|t| - 1] == 10
  }

  lemma SplitClosed(x: Text, y: Text)
    requires Closed(x)
    ensures SplitLines(x + y) == SplitLines(x) + SplitLines(y)
  {
    hide SplitLines;
    if x == [] {
      assert x + y == y;
      NoTextNoLines();
    } else {
      SplitJoined(x, y);
    }
  }

  lemma InertHasNoBreak(line: Text)
    requires Inert(line)
    ensures !HasBreak(line)
  {
  }

  lemma NoTextNoLines()
    ensures SplitLines([]) == []
  {
  }

  lemma {:induction false} HeaderLines(header: seq<Text>)
    requires forall l | l in header :: Inert(l)
    ensures SplitLines(Joined(header)) == header && Closed(Joined(header))
  {
    hide SplitLines, Inert, HasBreak;
    if header != [] {
      var n := |header| - 1;
      assert header[n] in header;
      forall l | l in header[..n] ensures Inert(l) { assert l in header; }
      HeaderLines(header[..n]);
      InertHasNoBreak(header[n]);
      WholeLine(header[n]);
      SplitClosed(Joined(header[..n]), header[n] + [10]);
    } else {
      NoTextNoLines();
    }
  }

  lemma RenderEnds(header: seq<Text>, m: Settings, keys: seq<Text>)
    requires (forall k | k in keys :: k in m) && Closed(Joined(header))
    ensures Closed(Render(header, m, keys))
  {
    hide EntryLine, Joined;
  }

  /** The lines of one more entry come after the lines so far. */
  lemma LinesGrow(header: seq<Text>, m: Settings, keys: seq<Text>)
    requires keys != [] && (forall k | k in keys :: k in m) && Closed(Joined(header))
    ensures var n := |keys| - 1;
      (forall k | k in keys[..n] :: k in m)
      && SplitLines(Render(header, m, keys))
         == SplitLines(Render(header, m, keys[..n])) + SplitLines(EntryLine(keys[n], m[keys[n]]) + [10])
  {
    hide SplitLines, EntryLine, Joined, Closed;
    var n := |keys| - 1;
    forall k | k in keys[..n] ensures k in m { assert k in keys; }
    RenderEnds(header, m, keys[..n]);
    SplitClosed(Render(header, m, keys[..n]), EntryLine(keys[n], m[keys[n]]) + [10]);
  }

  // ----- an entry line reads back -----------------------------------------------------------

  lemma KeyCharIsSolid(c: Code)
    requires KeyChar(c)
    ensures !IsSpace(c) && c != Equals() && c != Hash() && !IsBreak(c)
  {
  }

  lemma KeyCharsAreSolid(k: Text)
    requires LegalKey(k)
    ensures forall i | 0 <= i < |k| :: !IsSpace(k[i]) && k[i] != Equals() && k[i] != Hash() && !IsBreak(k[i])
    ensures Stripped(k) && Strip(k) == k
  {
    hide Strip, KeyChar, IsSpace, IsBreak, Equals, Hash;
    forall i | 0 <= i < |k| ensures !IsSpace(k[i]) && k[i] != Equals() && k[i] != Hash() && !IsBreak(k[i]) {
      KeyCharIsSolid(k[i]);
    }
    StripFixed(k);
  }

  lemma FirstEqualsIs(t: Text, at: nat)
    requires at < |t| && t[at] == Equals() && forall i | 0 <= i < at :: t[i] != Equals()
    ensures FirstEquals(t) == Some(at)
  {
    hide FirstEquals;
  }

  lemma PrintedIsStripped(v: Text)
    ensures Stripped(PrintValue(v))
  {
    hide Strip, Escape, HasComment;
    assert !IsSpace(Quote());
    StripFixed(v);
  }

  lemma NotExport(k: Text, tail: Text)
    requires LegalKey(k)
    ensures !(ExportPrefix() <= k + ([Equals()] + tail))
  {
    var t := k + ([Equals()] + tail);
    assert t[0] == if k == [] then Equals() else k[0];
    if |k| <= 6 {
      assert t[|k|] == Equals();
    } else {
      assert t[6] == k[6] && KeyChar(k[6]);
    }
  }

  /** What a line that starts with a key and an equals sign is read as. */
  lemma KeyedLine(k: Text, tail: Text)
    requires LegalKey(k) && Stripped(tail)
    ensures LineEntry(k + [Equals()] + tail)
         == match ParseValue(tail) case Err(e) => Err(e) case Ok(v) => Ok(Some(Entry(k, v)))
  {
    hide ParseValue, FirstEquals, LeftStrip, RightStrip, Strip, LegalKey;
    var t := k + [Equals()] + tail;
    assert t == k + ([Equals()] + tail);
    KeyCharsAreSolid(k);
    assert t[0] == k[0] by { KeyNotEmpty(k); }
    assert Stripped(t) by {
      KeyNotEmpty(k);
      if tail != [] { assert t[|t| - 1] == tail[|tail| - 1]; } else { assert t[|t| - 1] == Equals(); }
    }
    StripFixed(t);
    NotExport(k, tail);
    forall i | 0 <= i < |k| ensures t[i] != Equals() { assert t[i] == k[i]; }
    FirstEqualsIs(t, |k|);
    assert t[..|k|] == k && t[|k| + 1..] == tail;
  }

  lemma KeyNotEmpty(k: Text)
    requires LegalKey(k)
    ensures k != []
  {
  }

  lemma LineRoundTrip(k: Text, v: Text)
    requires LegalKey(k)
    ensures LineEntry(EntryLine(k, v)) == Ok(Some(Entry(k, v)))
  {
    PrintedIsStripped(v);
    KeyedLine(k, PrintValue(v));
    ValueRoundTrip(v);
    hide PrintValue, ParseValue, LineEntry;
  }

  lemma EntryBreaks(k: Text, v: Text)
    requires LegalKey(k) && !HasBreak(PrintValue(v))
    ensures !HasBreak(EntryLine(k, v))
  {
    hide PrintValue, LegalKey;
    KeyCharsAreSolid(k);
    assert !IsBreak(Equals());
    hide IsBreak, IsSpace, Equals;
    var t, p := EntryLine(k, v), PrintValue(v);
    forall i | 0 <= i < |t| ensures !IsBreak(t[i]) {
      EntryLineAt(k, v, i);
    }
  }

  lemma EntryLineAt(k: Text, v: Text, i: nat)
    requires i < |EntryLine(k, v)|
    ensures EntryLine(k, v)[i]
         == if i < |k| then k[i] else if i == |k| then Equals() else PrintValue(v)[i - |k| - 1]
  {
    hide PrintValue;
  }

  // ----- the round trip ---------------------------------------------------------------------

  function Restricted(m: Settings, keys: seq<Text>): Settings
    requires forall k | k in keys :: k in m
  {
    map k | k in keys :: m[k]
  }

  lemma ParseOneMore(lines: seq<Text>, line: Text)
    ensures ParseLines(lines + [line]) ==
      match ParseLines(lines)
      case Err(e) => Err(e)
      case Ok(data) =>
        match LineEntry(line)
        case Err(e) => Err(e)
        case Ok(None) => Ok(data)
        case Ok(Some(entry)) => Ok(data[entry.key := entry.value])
  {
    assert (lines + [line])[..|lines|] == lines;
  }

  lemma {:induction false} InertLinesParse(lines: seq<Text>)
    requires forall l | l in lines :: Inert(l)
    ensures ParseLines(lines) == Ok(map[])
  {
    if lines != [] {
      var n := |lines| - 1;
      assert lines[n] in lines;
      forall l | l in lines[..n] ensures Inert(l) { assert l in lines; }
      InertLinesParse(lines[..n]);
      InertLine(lines[n]);
    }
  }

  predicate Printable(m: Settings, k: Text)
    requires k in m
  {
    LegalKey(k) && !HasBreak(PrintValue(m[k]))
  }

  /** Whatever the order of the keys, the file parses back to the settings it was rendered from. */
  lemma {:induction false} RenderParses(header: seq<Text>, m: Settings, keys: seq<Text>)
    requires forall l | l in header :: Inert(l)
    requires forall k | k in keys :: k in m && Printable(m, k)
    ensures ParseText(Render(header, m, keys)) == Ok(Restricted(m, keys))
  {
    hide LegalKey, HasBreak, LineEntry, SplitLines, EntryLine, PrintValue, Inert, Joined, ParseLines, Closed;
    HeaderLines(header);
    if keys == [] {
      InertLinesParse(header);
      assert Restricted(m, keys) == map[];
    } else {
      var n := |keys| - 1;
      var k := keys[n];
      LinesGrow(header, m, keys);
      assert k in keys;
      forall x | x in keys[..n] ensures x in m && Printable(m, x) { assert x in keys; }
      RenderParses(header, m, keys[..n]);
      EntryBreaks(k, m[k]);
      WholeLine(EntryLine(k, m[k]));
      LineRoundTrip(k, m[k]);
      ParseOneMore(SplitLines(Render(header, m, keys[..n])), EntryLine(k, m[k]));
      assert keys == keys[..n] + [k];
      assert Restricted(m, keys) == Restricted(m, keys[..n])[k := m[k]];
    }
  }
}
