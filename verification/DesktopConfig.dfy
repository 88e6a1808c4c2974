/** The configuration store as it runs: parse the file line by line, merge, print, replace it. */
module DesktopConfig {
  import opened Common
  import opened Text
  import opened JsonString
  import opened EnvValue
  import opened EnvFile
  import opened EnvRoundTrip

  class DesktopConfig {
    var file: Option<Text>

    constructor (file: Option<Text>)
      ensures this.file == file
    {
      this.file := file;
    }

    /** The scan for a closing apostrophe. */
    static method FindClosing(t: Text) returns (end: Option<nat>)
      ensures end == ClosingQuote(t, false)
    {
      var escaped := false;
      var i := 0;
      assert t[0..] == t;
      while i < |t|
        invariant i <= |t|
        invariant ClosingQuote(t, false) ==
          match ClosingQuote(t[i..], escaped) case None => None case Some(k) => Some(i + k)
      {
        if t[i] == Apostrophe() && !escaped { return Some(i); }
        assert t[i..][1..] == t[i + 1..];
        escaped := t[i] == Backslash() && !escaped;
        i := i + 1;
      }
      return None;
    }

    static lemma {:induction false} ErrorStays(lines: seq<Text>, n: nat)
      requires n <= |lines| && ParseLines(lines[..n]).Err?
      ensures ParseLines(lines) == ParseLines(lines[..n])
    {
      if n == |lines| {
        assert lines[..n] == lines;
      } else {
        assert lines[..|lines| - 1][..n] == lines[..n];
        ErrorStays(lines[..|lines| - 1], n);
      }
    }

    static lemma NothingParsed(lines: seq<Text>)
      ensures ParseLines(lines[..0]) == Ok(map[])
    {
    }

    /** A missing file has no settings; any damaged line is fatal. */
    method ParseEnvFile() returns (r: Result<Settings, EnvError>)
      ensures r == if file.None? then Ok(map[]) else ParseText(file.value)
    {
      if file.None? { return Ok(map[]); }
      hide LineEntry, SplitLines, ParseLines;
      var lines := SplitLines(file.value);
      var data: Settings := map[];
      NothingParsed(lines);
      for i := 0 to |lines|
        invariant ParseLines(lines[..i]) == Ok(data)
      {
        assert lines[..i + 1] == lines[..i] + [lines[i]];
        ParseOneMore(lines[..i], lines[i]);
        var entry := LineEntry(lines[i]);
        if entry.Err? {
          ErrorStays(lines, i + 1);
          return Err(entry.error);
        }
        if entry.value.Some? {
          data := data[entry.value.value.key := entry.value.value.value];
        }
      }
      assert lines[..|lines|] == lines;
      r := Ok(data);
    }

    static method MergeFields(existing: Settings, values: Settings, fields: seq<Field>) returns (m: Settings)
      ensures m == Merged(existing, values, fields)
    {
      m := existing;
      for i := 0 to |fields|
        invariant m == Merged(existing, values, fields[..i])
      {
        assert fields[..i + 1][..i] == fields[..i];
        var f := fields[i];
        if f.key in values {
          m := m[f.key := values[f.key]];
        } else if f.key !in m {
          m := m[f.key := f.default];
        }
      }
      assert fields[..|fields|] == fields;
    }

    /** The keys in some order; the file's meaning does not depend on it. */
    static method KeysOf(m: Settings) returns (keys: seq<Text>)
      ensures forall k :: k in keys <==> k in m
    {
      keys := [];
      var left := m.Keys;
      while left != {}
        invariant left <= m.Keys
        invariant forall k :: k in keys <==> k in m && k !in left
      {
        var k :| k in left;
        keys := keys + [k];
        left := left - {k};
      }
    }

    static method Print(header: seq<Text>, m: Settings, keys: seq<Text>) returns (r: Result<Text, EnvError>)
      requires forall k | k in keys :: k in m
      ensures r == WriteConfig(header, m, keys)
    {
      hide EntryLine, Joined;
      var text := Joined(header);
      assert keys[..0] == [];
      for i := 0 to |keys|
        invariant forall k | k in keys[..i] :: k in m && !Refused(m[k])
        invariant text == Render(header, m, keys[..i])
      {
        var k := keys[i];
        assert k in keys;
        if Refused(m[k]) { return Err(HasNewline); }
        assert keys[..i + 1][..i] == keys[..i] && keys[..i + 1] == keys[..i] + [k];
        text := text + (EntryLine(k, m[k]) + [10]);
      }
      assert keys[..|keys|] == keys;
      r := Ok(text);
    }

    /** Persist the form values, preserving unmanaged keys; on an error the file is left alone. */
    method Write(values: Settings, fields: seq<Field>, header: seq<Text>) returns (r: Result<Settings, EnvError>)
      requires InertHeader(header) && DistinctFields(fields) && forall f | f in fields :: LegalKey(f.key)
      modifies this
      ensures r.Err? ==> file == old(file)
      ensures r.Ok? ==>
        && file.Some?
        && (old(file).Some? ==> ParseText(old(file).value).Ok?)
        && r.value == Merged(if old(file).Some? then ParseText(old(file).value).value else map[], values, fields)
        && (ParseText(file.value) == Ok(r.value) <==> forall k | k in r.value :: !HasBreak(PrintValue(r.value[k])))
    {
      hide ParseText, LegalKey, PrintValue, HasBreak, Render, Merged;
      var existing := ParseEnvFile();
      if existing.Err? { return Err(existing.error); }
      var m := MergeFields(existing.value, values, fields);
      var keys := KeysOf(m);
      var text := Print(header, m, keys);
      if text.Err? { return Err(text.error); }
      if file.Some? {
        WriteThenRead(file.value, values, fields, header, keys);
      } else {
        NoTextNoSettings();
        WriteThenRead([], values, fields, header, keys);
      }
      file := Some(text.value);
      r := Ok(m);
    }

    static lemma NoTextNoSettings()
      ensures ParseText([]) == Ok(map[])
    {
    }
  }
}
