/** Writing the configuration and reading it back. */
module EnvRoundTrip {
  import opened Common
  import opened Text
  import opened EnvValue
  import opened EnvFile
  import opened EnvBreaks

  predicate Broken(m: Settings, k: Text) {
    k in m && HasBreak(PrintValue(m[k]))
  }

  /** `keys` lists the keys of `m`, in any order, and each is legal. */
  ghost predicate Lists(keys: seq<Text>, m: Settings) {
    (forall k :: k in keys <==> k in m) && forall k | k in keys :: LegalKey(k)
  }

  ghost predicate InertHeader(header: seq<Text>) {
    forall l | l in header :: Inert(l)
  }

  // ----- where a setting was read -----------------------------------------------------------

  lemma {:induction false} ReadFromALine(lines: seq<Text>, k: Text)
    requires ParseLines(lines).Ok? && k in ParseLines(lines).value
    ensures exists l :: l in lines && LineEntry(l) == Ok(Some(Entry(k, ParseLines(lines).value[k])))
  {
    hide LineEntry;
    if lines != [] {
      var n := |lines| - 1;
      assert lines == lines[..n] + [lines[n]];
      var data := ParseLines(lines[..n]).value;
      var e := LineEntry(lines[n]).value;
      if e.Some? && e.value.key == k {
        assert lines[n] in lines;
      } else {
        ReadFromALine(lines[..n], k);
        var l :| l in lines[..n] && LineEntry(l) == Ok(Some(Entry(k, data[k])));
        assert l in lines;
      }
    }
  }

  lemma {:induction false} LineOrigin(header: seq<Text>, m: Settings, keys: seq<Text>, l: Text)
    requires InertHeader(header) && forall k | k in keys :: k in m
    requires l in SplitLines(Render(header, m, keys))
    ensures l in header || exists k :: k in keys && l in SplitLines(EntryLine(k, m[k]) + [10])
  {
    hide SplitLines, Inert, EntryLine, Joined, Closed;
    HeaderLines(header);
    if keys != [] {
      var n := |keys| - 1;
      LinesGrow(header, m, keys);
      if l in SplitLines(EntryLine(keys[n], m[keys[n]]) + [10]) {
        assert keys[n] in keys;
      } else {
        LineOrigin(header, m, keys[..n], l);
        if l !in header {
          var k :| k in keys[..n] && l in SplitLines(EntryLine(k, m[k]) + [10]);
          assert k in keys;
        }
      }
    }
  }

  /** If a file with a broken value read back, the value would have been read from the line of a longer
      broken one. */
  lemma LongerBroken(header: seq<Text>, m: Settings, keys: seq<Text>, k: Text)
    requires InertHeader(header) && Lists(keys, m) && ParseText(Render(header, m, keys)) == Ok(m) && Broken(m, k)
    ensures exists x :: x in m && Broken(m, x) && |m[k]| < |m[x]|
  {
    hide SplitLines, LineEntry, HasBreak, LegalKey, PrintValue, EntryLine, Inert, Render, ParseLines;
    var lines := SplitLines(Render(header, m, keys));
    ReadFromALine(lines, k);
    var l :| l in lines && LineEntry(l) == Ok(Some(Entry(k, m[k])));
    PrintedBreak(m[k]);
    LineOrigin(header, m, keys, l);
    if l in header { InertLine(l); }
    var x :| x in keys && l in SplitLines(EntryLine(x, m[x]) + [10]);
    if HasBreak(PrintValue(m[x])) {
      PieceOfBroken(x, m[x], l);
      assert Broken(m, x);
    } else {
      EntryBreaks(x, m[x]);
      WholeLine(EntryLine(x, m[x]));
      LineRoundTrip(x, m[x]);
    }
  }

  lemma {:induction false} NoChainOfBroken(header: seq<Text>, m: Settings, keys: seq<Text>, k: Text, bound: nat)
    requires InertHeader(header) && Lists(keys, m) && ParseText(Render(header, m, keys)) == Ok(m)
    requires k in m && Broken(m, k) && forall x | x in m :: |m[x]| <= bound
    ensures false
    decreases bound - |m[k]|
  {
    hide ParseText, Render, Lists, Broken, InertHeader;
    LongerBroken(header, m, keys, k);
    var x :| x in m && Broken(m, x) && |m[k]| < |m[x]|;
    NoChainOfBroken(header, m, keys, x, bound);
  }

  lemma {:induction false} Bounded(m: Settings, keys: set<Text>) returns (bound: nat)
    requires keys <= m.Keys
    ensures forall x | x in keys :: |m[x]| <= bound
  {
    if keys == {} {
      bound := 0;
    } else {
      var k :| k in keys;
      var rest := Bounded(m, keys - {k});
      bound := Max(rest, |m[k]|);
      forall x | x in keys ensures |m[x]| <= bound {
        if x != k { assert x in keys - {k}; }
      }
    }
  }

  /** The configuration written to the file reads back as it was written exactly when no printed value
      holds a character that ends a line; the guard refuses only two of those characters. */
  lemma ReadsBackIff(header: seq<Text>, m: Settings, keys: seq<Text>)
    requires InertHeader(header) && Lists(keys, m) && WriteConfig(header, m, keys).Ok?
    ensures ParseText(WriteConfig(header, m, keys).value) == Ok(m)
       <==> forall k | k in m :: !HasBreak(PrintValue(m[k]))
  {
    hide ParseText, Render, HasBreak, PrintValue, LegalKey;
    if forall k | k in m :: !HasBreak(PrintValue(m[k])) {
      RenderParses(header, m, keys);
      assert Restricted(m, keys) == m;
    } else if ParseText(Render(header, m, keys)) == Ok(m) {
      var k :| k in m && HasBreak(PrintValue(m[k]));
      var bound := Bounded(m, m.Keys);
      NoChainOfBroken(header, m, keys, k, bound);
    }
  }

  /** A vertical tab passes the guard and is lost: the file reads back as something else. */
  lemma VerticalTabIsLost(header: seq<Text>, k: Text)
    requires InertHeader(header) && LegalKey(k)
    ensures var m := map[k := [97, 11, 98]];
      WriteConfig(header, m, [k]).Ok? && ParseText(WriteConfig(header, m, [k]).value) != Ok(m)
  {
    hide LegalKey, ParseText, Render, PrintValue, HasBreak, InertHeader, Refused;
    var v: Text := [97, 11, 98];
    var m := map[k := v];
    PlainTab(v);
    assert m[k] == v && k in m;
    assert forall x | x in [k] :: x == k;
    assert Lists([k], m);
    ReadsBackIff(header, m, [k]);
  }

  lemma PlainTab(v: Text)
    requires v == [97, 11, 98]
    ensures PrintValue(v) == v && HasBreak(v) && !Refused(v)
  {
    assert !IsSpace(97) && !IsSpace(98) && !IsSpace(35);
    assert IsBreak(v[1]);
    StripFixed(v);
    hide Strip, IsSpace, IsBreak;
    var t := v[1..];
    assert t == [11, 98];
    var u := t[1..];
    assert u == [98];
    assert u[1..] == [];
    assert !HasComment(u) by {
      assert !CommentAt(u) && !HasComment(u[1..]);
    }
    assert !HashAfterBlanks(u);
    assert !HasComment(t) by {
      assert !CommentAt(t);
    }
    assert !CommentAt(v);
    assert !HasComment(v);
  }

  // ----- merging ----------------------------------------------------------------------------

  ghost predicate DistinctFields(fields: seq<Field>) {
    forall i, j | 0 <= i < j < |fields| :: fields[i].key != fields[j].key
  }

  lemma {:induction false} MergedField(existing: Settings, values: Settings, fields: seq<Field>, f: Field)
    requires DistinctFields(fields) && f in fields
    ensures var m := Merged(existing, values, fields);
      f.key in m && m[f.key] ==
        if f.key in values then values[f.key] else if f.key in existing then existing[f.key] else f.default
  {
    hide DistinctFields;
    var n := |fields| - 1;
    LastField(fields);
    if f == fields[n] {
      MergedOther(existing, values, fields[..n], f.key);
    } else {
      MergedField(existing, values, fields[..n], f);
    }
  }

  lemma LastField(fields: seq<Field>)
    requires DistinctFields(fields) && fields != []
    ensures var n := |fields| - 1;
      && DistinctFields(fields[..n])
      && (forall f | f in fields :: f == fields[n] || f in fields[..n])
      && (forall f | f in fields[..n] :: f.key != fields[n].key)
  {
    var n := |fields| - 1;
    assert fields == fields[..n] + [fields[n]];
    forall f | f in fields[..n] ensures f.key != fields[n].key {
      var i :| 0 <= i < n && fields[..n][i] == f;
      assert fields[i] == f;
    }
  }

  lemma {:induction false} MergedOther(existing: Settings, values: Settings, fields: seq<Field>, k: Text)
    requires forall f | f in fields :: f.key != k
    ensures var m := Merged(existing, values, fields);
      (k in m <==> k in existing) && (k in m ==> m[k] == existing[k])
  {
    if fields != [] {
      assert fields[|fields| - 1] in fields;
      MergedOther(existing, values, fields[..|fields| - 1], k);
    }
  }

  /** A form value wins, then what the file had, then the default; unmanaged keys stay as they were and
      nothing else appears. */
  lemma MergedIs(existing: Settings, values: Settings, fields: seq<Field>, k: Text)
    requires DistinctFields(fields)
    ensures var m := Merged(existing, values, fields);
      && (forall f | f in fields && f.key == k :: k in m && m[k] ==
            if k in values then values[k] else if k in existing then existing[k] else f.default)
      && ((forall f | f in fields :: f.key != k) ==> ((k in m <==> k in existing) && (k in m ==> m[k] == existing[k])))
  {
    hide Merged, DistinctFields;
    if f :| f in fields && f.key == k {
      forall g | g in fields && g.key == k {
        MergedField(existing, values, fields, g);
      }
    } else {
      MergedOther(existing, values, fields, k);
    }
  }

  lemma ParsedKeyIsLegal(lines: seq<Text>, k: Text)
    requires ParseLines(lines).Ok? && k in ParseLines(lines).value
    ensures LegalKey(k)
  {
    hide LineEntry, LegalKey, ParseLines;
    ReadFromALine(lines, k);
    var l :| l in lines && LineEntry(l) == Ok(Some(Entry(k, ParseLines(lines).value[k])));
    EntryKeyIsLegal(l);
  }

  lemma EntryKeyIsLegal(l: Text)
    requires LineEntry(l).Ok? && LineEntry(l).value.Some?
    ensures LegalKey(LineEntry(l).value.value.key)
  {
    hide ParseValue, Strip, LegalKey, WithoutExport;
  }

  /** Writing form values over an existing file and reading the result gives the merged settings, exactly
      when no merged value prints with a line break. */
  lemma WriteThenRead(existing: Text, values: Settings, fields: seq<Field>, header: seq<Text>, keys: seq<Text>)
    requires ParseText(existing).Ok? && InertHeader(header)
    requires DistinctFields(fields) && forall f | f in fields :: LegalKey(f.key)
    requires forall k :: k in keys <==> k in Merged(ParseText(existing).value, values, fields)
    ensures var m := Merged(ParseText(existing).value, values, fields);
      WriteConfig(header, m, keys).Ok? ==>
        (ParseText(WriteConfig(header, m, keys).value) == Ok(m)
         <==> forall k | k in m :: !HasBreak(PrintValue(m[k])))
  {
    var m := Merged(ParseText(existing).value, values, fields);
    forall k | k in m ensures LegalKey(k) {
      MergedIs(ParseText(existing).value, values, fields, k);
      if k in ParseText(existing).value { ParsedKeyIsLegal(SplitLines(existing), k); }
      hide LegalKey, Merged, ParseLines, SplitLines;
    }
    hide LegalKey, Merged, ParseLines, SplitLines, Render, PrintValue, HasBreak;
    if WriteConfig(header, m, keys).Ok? {
      ReadsBackIff(header, m, keys);
    }
  }
}
