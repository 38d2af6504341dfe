/**
 What the ESP32 line protocol promises: built frames read back, the two kinds of upstream frame are never confused, a
 frame with one changed byte is rejected, and the handshake therefore ends with the answer to its own request.
 */
module FrameLaws {
  import opened Common
  import opened Texts
  import opened Numbers
  import opened Frames

  // ---------- acknowledgements ----------

  predicate AckTextsFit(prefix: Text, a: Ack, checksum: bool) {
    && Lacks(prefix, '|') && LeadingSpace(prefix) == 0
    && Lacks(a.rid, '|')
    && (a.error.Some? ==> Lacks(a.error.value, '|') && (checksum || TrailingSpace(a.error.value) == 0))
  }

  lemma AckFieldsClean(a: Ack)
    requires Lacks(a.rid, '|') && (a.error.Some? ==> Lacks(a.error.value, '|'))
    ensures AreClean(AckFields(a))
  {
  }

  lemma AckFieldsRead(a: Ack)
    ensures AckFrom(MapOf(AckFields(a))) == Ok(a)
  {
    var fs := AckFields(a);
    assert "ack" != [] && fs[0].key == "v" && fs[1].key == "type" && fs[2].key == "rid" && fs[3].key == "ok";
    assert |"v"| == 1 && |"type"| == 4 && |"rid"| == 3 && |"ok"| == 2 && |"err"| == 3;
    assert "rid"[0] == 'r' && "err"[0] == 'e';
    MapOfValue(fs, 0);
    MapOfValue(fs, 1);
    MapOfValue(fs, 2);
    MapOfValue(fs, 3);
    MapOfKeys(fs, "err");
    if a.error.Some? { MapOfValue(fs, 4); }
  }

  /** Without a checksum, trimming the line trims the error text. */
  function AckSeen(a: Ack, checksum: bool): Ack {
    if checksum || a.error.None? then a else a.(error := Some(TrimEnd(a.error.value)))
  }

  lemma AckTrimLast(a: Ack)
    ensures TrimLast(AckFields(a)) == AckFields(AckSeen(a, false))
  {
    TrimEndExact("0");
    TrimEndExact("1");
  }

  lemma AckParses(prefix: Text, a: Ack, checksum: bool)
    requires Lacks(prefix, '|') && LeadingSpace(prefix) == 0
    requires Lacks(a.rid, '|') && (a.error.Some? ==> Lacks(a.error.value, '|'))
    ensures ParseAck(BuildAck(prefix, a, checksum), prefix, checksum) == Ok(AckSeen(a, checksum))
  {
    AckFieldsClean(a);
    FrameParses(prefix, AckFields(a), checksum);
    AckTrimLast(a);
    AckFieldsRead(AckSeen(a, checksum));
  }

  lemma ValueLacksBar(part: Text)
    requires Lacks(part, '|') && SplitOnce(part).Some?
    ensures Lacks(SplitOnce(part).value.1, '|')
  {
    SplitOnceParts(part);
    var k, v := SplitOnce(part).value.0, SplitOnce(part).value.1;
    assert forall i :: 0 <= i < |v| ==> v[i] == part[|k| + 1 + i];
  }

  lemma {:induction false} ValuesLackBars(parts: seq<Text>, n: nat, key: Text)
    requires 1 <= n <= |parts| && (forall i :: 0 <= i < |parts| ==> Lacks(parts[i], '|'))
    requires ScanParts(parts, n).Some? && key in ScanParts(parts, n).value.fields
    ensures Lacks(ScanParts(parts, n).value.fields[key], '|')
  {
    if n > 1 {
      if key in ScanParts(parts, n - 1).value.fields { ValuesLackBars(parts, n - 1, key); }
      ValueLacksBar(parts[n - 1]);
    }
  }

  /** What any accepted line shows about the expected prefix and about every field. */
  lemma AcceptedTexts(line: Text, prefix: Text, checksum: bool, key: Text)
    requires FieldsOf(line, prefix, checksum).Ok?
    ensures Lacks(prefix, '|') && LeadingSpace(prefix) == 0
    ensures var fields := FieldsOf(line, prefix, checksum).value; key in fields ==> Lacks(fields[key], '|')
  {
    var parts := Split(Trim(line));
    forall i | 0 <= i < |parts| ensures Lacks(parts[i], '|') {
      PartsLackBars(Trim(line), i);
    }
    FirstPartStarts(Trim(line));
    TrimEndExact(TrimStart(line));
    TrimStartExact(line);
    if key in ScanParts(parts, |parts|).value.fields { ValuesLackBars(parts, |parts|, key); }
  }

  /** A built acknowledgement reads back as itself exactly when its texts fit the grammar. */
  lemma AckRoundTrip(prefix: Text, a: Ack, checksum: bool)
    ensures ParseAck(BuildAck(prefix, a, checksum), prefix, checksum) == Ok(a) <==> AckTextsFit(prefix, a, checksum)
  {
    var line := BuildAck(prefix, a, checksum);
    if ParseAck(line, prefix, checksum) == Ok(a) {
      AcceptedTexts(line, prefix, checksum, "rid");
      AcceptedTexts(line, prefix, checksum, "err");
      AckParses(prefix, a, checksum);
    }
    if a.error.Some? { TrimEndExact(a.error.value); }
    if AckTextsFit(prefix, a, checksum) { AckParses(prefix, a, checksum); }
  }

  // ---------- samples ----------

  function Rounded(s: Sample): Sample {
    Sample(Round2(s.temperature), Round2(s.pressure), Round2(s.stirrer), Round2(s.shake), s.tilt, Round2(s.flow),
           Round2(s.concentration), Round2(s.ph))
  }

  predicate SampleOnGrid(s: Sample) {
    && OnGrid(s.temperature) && OnGrid(s.pressure) && OnGrid(s.stirrer) && OnGrid(s.shake) && OnGrid(s.flow)
    && OnGrid(s.concentration) && OnGrid(s.ph)
  }

  lemma RoundedIsExact(s: Sample)
    ensures Rounded(s) == s <==> SampleOnGrid(s)
  {
    Round2Exact(s.temperature);
    Round2Exact(s.pressure);
    Round2Exact(s.stirrer);
    Round2Exact(s.shake);
    Round2Exact(s.flow);
    Round2Exact(s.concentration);
    Round2Exact(s.ph);
  }

  /** A value printed into a field: free of separators, and not touched by trimming. */
  predicate IsPlain(v: Text) { Lacks(v, '|') && TrailingSpace(v) == 0 && LeadingSpace(v) == 0 }

  lemma PrintedIsPlain(x: real)
    ensures IsPlain(Print2(x))
  {
    Print2Shape(x);
  }

  lemma DigitsArePlain(n: nat)
    ensures IsPlain(PrintNat(n))
  {
    var s := PrintNat(n);
    assert IsDigit(s[0]) && IsDigit(s[|s| - 1]);
  }

  predicate IsCleanKey(k: Text) { Lacks(k, '=') && Lacks(k, '|') && k != "chk" }

  lemma SampleKeysClean(i: nat)
    requires i < |SampleKeys()|
    ensures IsCleanKey(SampleKeys()[i])
  {
  }

  lemma SampleKeysDistinct(i: nat, j: nat)
    requires i < j < |SampleKeys()|
    ensures SampleKeys()[i] != SampleKeys()[j]
  {
    var keys, lengths := SampleKeys(), [1, 3, 2, 4, 8, 10, 11, 10, 9, 21, 2];
    assert |keys[i]| == lengths[i] && |keys[j]| == lengths[j];
    assert keys[2][0] != keys[10][0] && keys[5][0] != keys[7][0];
  }

  lemma SampleValuesPlain(s: Sample, ms: int, i: nat)
    requires i < |SampleValues(s, ms)|
    ensures IsPlain(SampleValues(s, ms)[i])
  {
    if i == 2 {
      DigitsArePlain(if ms < 0 then 0 else ms);
    } else if i == 7 {
      DigitsArePlain(s.tilt);
    } else if i > 2 {
      var x := [s.temperature, s.pressure, s.stirrer, s.shake, 0.0, s.flow, s.concentration, s.ph][i - 3];
      PrintedIsPlain(x);
      assert SampleValues(s, ms)[i] == Print2(x);
    }
  }

  lemma SampleFieldsClean(s: Sample, ms: int)
    ensures AreClean(SampleFields(s, ms)) && TrimLast(SampleFields(s, ms)) == SampleFields(s, ms)
  {
    var fs, last := SampleFields(s, ms), |SampleFields(s, ms)| - 1;
    forall i | 0 <= i < |fs| ensures IsClean(fs[i]) && IsPlain(fs[i].value) {
      SampleKeysClean(i);
      SampleValuesPlain(s, ms, i);
    }
    TrimEndExact(fs[last].value);
    assert fs[last].(value := TrimEnd(fs[last].value)) == fs[last];
  }

  lemma TiltReads(tilt: nat)
    ensures Trim(PrintNat(tilt)) == PrintNat(tilt)
    ensures PrintNat(tilt) == "0" <==> tilt == 0
    ensures PrintNat(tilt) == "1" <==> tilt == 1
  {
    DigitsArePlain(tilt);
    TrimStartExact(PrintNat(tilt));
    TrimEndExact(PrintNat(tilt));
    NatRoundTrip(tilt);
    NatRoundTrip(0);
    NatRoundTrip(1);
  }

  /** Every field of a sample is found under its own key. */
  lemma SampleLookup(s: Sample, ms: int, i: nat)
    requires i < |SampleKeys()|
    ensures
      var m, key := MapOf(SampleFields(s, ms)), SampleKeys()[i];
      key in m && m[key] == SampleValues(s, ms)[i]
  {
    var fs := SampleFields(s, ms);
    forall j | i < j < |fs| ensures fs[j].key != fs[i].key {
      SampleKeysDistinct(i, j);
    }
    MapOfValue(fs, i);
  }

  lemma NumberReads(s: Sample, ms: int, i: nat, keys: seq<Text>, x: real)
    requires i < |SampleKeys()| && |keys| >= 1 && keys[0] == SampleKeys()[i] && SampleValues(s, ms)[i] == Print2(x)
    ensures NumberAny(MapOf(SampleFields(s, ms)), keys) == Ok(Round2(x))
    ensures NumberOr(MapOf(SampleFields(s, ms)), keys, 0.0) == Ok(Round2(x))
    ensures NumberOr(MapOf(SampleFields(s, ms)), keys, 7.0) == Ok(Round2(x))
  {
    SampleLookup(s, ms, i);
    PrintParse(x);
  }

  /** The numbers of a sample, each under the keys the parser tries. */
  lemma ShakeReads(s: Sample, ms: int)
    ensures NumberAny(MapOf(SampleFields(s, ms)), ["shake_speed", "shake"]) == Ok(Round2(s.shake))
  {
    NumberReads(s, ms, 6, ["shake_speed", "shake"], s.shake);
  }

  lemma TemperatureReads(s: Sample, ms: int)
    ensures NumberAny(MapOf(SampleFields(s, ms)), ["temp", "temperature"]) == Ok(Round2(s.temperature))
  {
    NumberReads(s, ms, 3, ["temp", "temperature"], s.temperature);
  }

  lemma PressureReads(s: Sample, ms: int)
    ensures NumberAny(MapOf(SampleFields(s, ms)), ["pressure"]) == Ok(Round2(s.pressure))
  {
    NumberReads(s, ms, 4, ["pressure"], s.pressure);
  }

  lemma MotionNumbersRead(s: Sample, ms: int)
    ensures
      var m := MapOf(SampleFields(s, ms));
      && NumberAny(m, ["stir_speed", "rpm"]) == Ok(Round2(s.stirrer))
      && NumberAny(m, ["flow_rate", "flow"]) == Ok(Round2(s.flow))
  {
    NumberReads(s, ms, 5, ["stir_speed", "rpm"], s.stirrer);
    NumberReads(s, ms, 8, ["flow_rate", "flow"], s.flow);
  }

  lemma OptionalNumbersRead(s: Sample, ms: int)
    ensures
      var m := MapOf(SampleFields(s, ms));
      && NumberOr(m, ["product_concentration", "conc", "concentration"], 0.0) == Ok(Round2(s.concentration))
      && NumberOr(m, ["ph"], 7.0) == Ok(Round2(s.ph))
  {
    NumberReads(s, ms, 9, ["product_concentration", "conc", "concentration"], s.concentration);
    NumberReads(s, ms, 10, ["ph"], s.ph);
  }

  lemma TiltFieldReads(s: Sample, ms: int)
    ensures
      var m := MapOf(SampleFields(s, ms));
      && Required(m, "v") == Ok("1")
      && TiltAny(m, ["tilt_state", "tilt"]) == if s.tilt <= 1 then Ok(s.tilt) else Err(BadTilt)
  {
    SampleLookup(s, ms, 0);
    SampleLookup(s, ms, 7);
    TiltReads(s.tilt);
  }

  lemma SampleFieldsRead(s: Sample, ms: int)
    ensures SampleFrom(MapOf(SampleFields(s, ms))) == if s.tilt <= 1 then Ok(Rounded(s)) else Err(BadTilt)
  {
    TiltFieldReads(s, ms);
    ShakeReads(s, ms);
    TemperatureReads(s, ms);
    PressureReads(s, ms);
    MotionNumbersRead(s, ms);
    OptionalNumbersRead(s, ms);
  }

  /** The text under the first of the keys that is present is this one. */
  predicate Under(m: map<Text, Text>, keys: seq<Text>, text: Text) {
    exists i :: 0 <= i < |keys| && keys[i] in m && m[keys[i]] == text && forall j :: 0 <= j < i ==> keys[j] !in m
  }

  predicate Absent(m: map<Text, Text>, keys: seq<Text>) { forall i :: 0 <= i < |keys| ==> keys[i] !in m }

  lemma {:induction false} AnyOfIsExact(m: map<Text, Text>, keys: seq<Text>, text: Text)
    ensures AnyOf(m, keys) == Ok(text) <==> Under(m, keys, text)
    ensures AnyOf(m, keys).Err? <==> Absent(m, keys)
  {
    if keys != [] && keys[0] !in m {
      AnyOfIsExact(m, keys[1..], text);
      if i :| 0 <= i < |keys| - 1 && keys[1..][i] in m && m[keys[1..][i]] == text
              && forall j :: 0 <= j < i ==> keys[1..][j] !in m {
        assert keys[i + 1] in m && forall j :: 0 <= j < i + 1 ==> j == 0 || keys[j] == keys[1..][j - 1];
      }
      if i :| 0 <= i < |keys| && keys[i] in m && m[keys[i]] == text && forall j :: 0 <= j < i ==> keys[j] !in m {
        assert keys[1..][i - 1] == keys[i] && forall j :: 0 <= j < i - 1 ==> keys[1..][j] == keys[j + 1];
      }
      assert Absent(m, keys[1..]) <==> Absent(m, keys);
    }
  }

  /** The first of the keys that is present has a text that reads as this number. */
  predicate NumberUnder(m: map<Text, Text>, keys: seq<Text>, x: real) {
    exists i :: 0 <= i < |keys| && keys[i] in m && ParseNumber(m[keys[i]]) == Some(x) && Absent(m, keys[..i])
  }

  lemma NumberAnyIsExact(m: map<Text, Text>, keys: seq<Text>, x: real)
    ensures NumberAny(m, keys) == Ok(x) <==> NumberUnder(m, keys, x)
  {
    if NumberAny(m, keys) == Ok(x) {
      var text := AnyOf(m, keys).value;
      AnyOfIsExact(m, keys, text);
      var i :| 0 <= i < |keys| && keys[i] in m && m[keys[i]] == text && forall j :: 0 <= j < i ==> keys[j] !in m;
      assert Absent(m, keys[..i]);
    }
    if NumberUnder(m, keys, x) {
      var i :| 0 <= i < |keys| && keys[i] in m && ParseNumber(m[keys[i]]) == Some(x) && Absent(m, keys[..i]);
      forall j | 0 <= j < i ensures keys[j] !in m { assert keys[..i][j] == keys[j]; }
      AnyOfIsExact(m, keys, m[keys[i]]);
    }
  }

  /** What the fields of a sample frame must say: each number under its key or an older name of it, and the defaults. */
  predicate SaysSample(m: map<Text, Text>, s: Sample) {
    && "v" in m && m["v"] == "1"
    && NumberUnder(m, ["temp", "temperature"], s.temperature) && NumberUnder(m, ["pressure"], s.pressure)
    && NumberUnder(m, ["stir_speed", "rpm"], s.stirrer) && NumberUnder(m, ["shake_speed", "shake"], s.shake)
    && NumberUnder(m, ["flow_rate", "flow"], s.flow)
    && (if Absent(m, ["product_concentration", "conc", "concentration"]) then s.concentration == 0.0
        else NumberUnder(m, ["product_concentration", "conc", "concentration"], s.concentration))
    && (if "ph" in m then ParseNumber(m["ph"]) == Some(s.ph) else s.ph == 7.0)
    && s.tilt <= 1 && TiltUnder(m, if s.tilt == 0 then "0" else "1")
  }

  predicate TiltUnder(m: map<Text, Text>, text: Text) {
    if "tilt_state" in m then Trim(m["tilt_state"]) == text else "tilt" in m && Trim(m["tilt"]) == text
  }

  lemma TiltAnyIsExact(m: map<Text, Text>, tilt: nat)
    ensures TiltAny(m, ["tilt_state", "tilt"]) == Ok(tilt) <==>
            tilt <= 1 && TiltUnder(m, if tilt == 0 then "0" else "1")
  {
    var keys := ["tilt_state", "tilt"];
    assert keys[0] == "tilt_state" && keys[1..] == ["tilt"] && ["tilt"][0] == "tilt" && ["tilt"][1..] == [];
    assert AnyOf(m, ["tilt"]) == if "tilt" in m then Ok(m["tilt"]) else AnyOf(m, []);
    assert "0" != "1";
  }

  lemma NumberOrIsExact(m: map<Text, Text>, keys: seq<Text>, otherwise: real, x: real)
    ensures NumberOr(m, keys, otherwise) == Ok(x) <==>
            if Absent(m, keys) then x == otherwise else NumberUnder(m, keys, x)
  {
    AnyOfIsExact(m, keys, "");
    NumberAnyIsExact(m, keys, x);
  }

  lemma PhIsExact(m: map<Text, Text>, x: real)
    ensures NumberOr(m, ["ph"], 7.0) == Ok(x) <==> if "ph" in m then ParseNumber(m["ph"]) == Some(x) else x == 7.0
  {
    assert ["ph"][0] == "ph" && ["ph"][1..] == [];
    assert AnyOf(m, ["ph"]) == if "ph" in m then Ok(m["ph"]) else AnyOf(m, []);
  }

  /** A sample is read exactly from the fields that say it. */
  lemma SampleFromIsExact(m: map<Text, Text>, s: Sample)
    ensures SampleFrom(m) == Ok(s) <==> SaysSample(m, s)
  {
    NumberAnyIsExact(m, ["temp", "temperature"], s.temperature);
    NumberAnyIsExact(m, ["pressure"], s.pressure);
    NumberAnyIsExact(m, ["stir_speed", "rpm"], s.stirrer);
    NumberAnyIsExact(m, ["shake_speed", "shake"], s.shake);
    NumberAnyIsExact(m, ["flow_rate", "flow"], s.flow);
    NumberOrIsExact(m, ["product_concentration", "conc", "concentration"], 0.0, s.concentration);
    PhIsExact(m, s.ph);
    TiltAnyIsExact(m, s.tilt);
    SampleFromParts(m, s);
  }

  /** The parser succeeds with a sample exactly if each of its parts does with its part of it. */
  lemma SampleFromParts(m: map<Text, Text>, s: Sample)
    ensures SampleFrom(m) == Ok(s) <==>
            && Required(m, "v") == Ok("1")
            && NumberAny(m, ["shake_speed", "shake"]) == Ok(s.shake)
            && TiltAny(m, ["tilt_state", "tilt"]) == Ok(s.tilt)
            && NumberAny(m, ["temp", "temperature"]) == Ok(s.temperature)
            && NumberAny(m, ["pressure"]) == Ok(s.pressure)
            && NumberAny(m, ["stir_speed", "rpm"]) == Ok(s.stirrer)
            && NumberAny(m, ["flow_rate", "flow"]) == Ok(s.flow)
            && NumberOr(m, ["product_concentration", "conc", "concentration"], 0.0) == Ok(s.concentration)
            && NumberOr(m, ["ph"], 7.0) == Ok(s.ph)
  {
  }

  /** What the fields of an acknowledgement must say. */
  predicate SaysAck(m: map<Text, Text>, a: Ack) {
    && "v" in m && m["v"] == "1" && "type" in m && m["type"] == "ack" && "rid" in m && m["rid"] == a.rid
    && "ok" in m && (if a.ok then m["ok"] == "1" || m["ok"] == "true" else m["ok"] == "0" || m["ok"] == "false")
    && (a.error.Some? <==> "err" in m) && (a.error.Some? ==> a.error.value == m["err"])
  }

  /** An acknowledgement is read exactly from the fields that say it. */
  lemma AckFromIsExact(m: map<Text, Text>, a: Ack)
    ensures AckFrom(m) == Ok(a) <==> SaysAck(m, a)
  {
    assert |"1"| == 1 && |"0"| == 1 && |"true"| == 4 && |"false"| == 5 && "1"[0] != "0"[0];
  }

  /** A built sample carries the time it was taken, in milliseconds, and zero for a time before the epoch. */
  lemma SampleCarriesTime(s: Sample, ms: int)
    ensures
      var m := MapOf(SampleFields(s, ms));
      && "ms" in m && AllDigits(m["ms"]) && NatOf(m["ms"]) == (if ms < 0 then 0 else ms)
      && "seq" in m && m["seq"] == "0"
  {
    SampleLookup(s, ms, 1);
    SampleLookup(s, ms, 2);
    NatRoundTrip(if ms < 0 then 0 else ms);
  }

  /** A built sample reads back rounded to two decimals, or is refused. */
  lemma SampleParses(prefix: Text, s: Sample, ms: int, checksum: bool)
    ensures
      var r := ParseSample(BuildSample(prefix, s, ms, checksum), prefix, checksum);
      if Lacks(prefix, '|') && LeadingSpace(prefix) == 0 && s.tilt <= 1 then r == Ok(Rounded(s)) else r.Err?
  {
    var line := BuildSample(prefix, s, ms, checksum);
    if FieldsOf(line, prefix, checksum).Ok? { AcceptedTexts(line, prefix, checksum, "v"); }
    if Lacks(prefix, '|') && LeadingSpace(prefix) == 0 {
      SampleFieldsClean(s, ms);
      FrameParses(prefix, SampleFields(s, ms), checksum);
      SampleFieldsRead(s, ms);
    }
  }

  /** A built sample reads back as itself exactly when its values lie on the 0.01 grid and its prefix and tilt fit. */
  lemma SampleRoundTrip(prefix: Text, s: Sample, ms: int, checksum: bool)
    ensures
      ParseSample(BuildSample(prefix, s, ms, checksum), prefix, checksum) == Ok(s) <==>
      Lacks(prefix, '|') && LeadingSpace(prefix) == 0 && s.tilt <= 1 && SampleOnGrid(s)
  {
    SampleParses(prefix, s, ms, checksum);
    RoundedIsExact(s);
  }

  // ---------- commands ----------

  lemma CommandKeysClean(i: nat)
    requires i < |CommandKeys()|
    ensures IsCleanKey(CommandKeys()[i]) && |CommandKeys()[i]| >= 9
  {
  }

  lemma CommandKeysDistinct(i: nat, j: nat)
    requires i < j < |CommandKeys()|
    ensures CommandKeys()[i] != CommandKeys()[j]
  {
    var keys, lengths := CommandKeys(), [9, 9, 9, 11, 10, 11, 15];
    assert |keys[i]| == lengths[i] && |keys[j]| == lengths[j];
    assert keys[0][1] == 'e' && keys[1][0] == 'h' && keys[1][1] == 'o' && keys[2][0] == 'c' && keys[0][0] == 'h';
    assert keys[3][0] == 't' && keys[5][0] == 's';
  }

  function CommandNumbers(c: Command): seq<real> {
    [c.heat, c.hold, c.cool, c.temperature, c.stirrer, c.shake, c.pressure]
  }

  lemma CommandValueIs(c: Command, i: nat)
    requires i < |CommandKeys()|
    ensures CommandValues(c)[i] == Print2(CommandNumbers(c)[i]) && IsPlain(CommandValues(c)[i])
  {
    PrintedIsPlain(CommandNumbers(c)[i]);
  }

  lemma CommandFieldsClean(c: Command, rid: Option<Text>)
    requires rid.Some? ==> Lacks(rid.value, '|')
    ensures AreClean(CommandFields(c, rid)) && TrimLast(CommandFields(c, rid)) == CommandFields(c, rid)
  {
    var fs, head := CommandFields(c, rid), 1 + |RidFields(rid)|;
    var last := |fs| - 1;
    forall i | 0 <= i < |fs| ensures IsClean(fs[i]) {
      if i >= head {
        assert fs[i] == Field(CommandKeys()[i - head], CommandValues(c)[i - head]);
        CommandKeysClean(i - head);
        CommandValueIs(c, i - head);
      }
    }
    CommandValueIs(c, 6);
    TrimEndExact(fs[last].value);
    assert fs[last].(value := TrimEnd(fs[last].value)) == fs[last];
  }

  /** Every number of a command is found under its own key. */
  lemma CommandLookup(c: Command, rid: Option<Text>, i: nat)
    requires i < |CommandKeys()|
    ensures
      var m, key := MapOf(CommandFields(c, rid)), CommandKeys()[i];
      key in m && m[key] == Print2(CommandNumbers(c)[i])
  {
    var fs, head := CommandFields(c, rid), 1 + |RidFields(rid)|;
    forall j | head + i < j < |fs| ensures fs[j].key != fs[head + i].key {
      CommandKeysDistinct(i, j - head);
    }
    MapOfValue(fs, head + i);
    CommandValueIs(c, i);
  }

  lemma CommandHeadLookup(c: Command, rid: Option<Text>)
    ensures
      var m := MapOf(CommandFields(c, rid));
      && "v" in m && m["v"] == "1"
      && ("rid" in m <==> rid.Some?) && (rid.Some? ==> m["rid"] == rid.value)
  {
    var fs, head := CommandFields(c, rid), 1 + |RidFields(rid)|;
    forall j | head <= j < |fs| ensures |fs[j].key| >= 9 { CommandKeysClean(j - head); }
    assert |"v"| == 1 && |"rid"| == 3 && fs[0].key == "v";
    MapOfValue(fs, 0);
    MapOfKeys(fs, "rid");
    if rid.Some? { MapOfValue(fs, 1); }
  }

  /** The fields say what the command says: each number under its own key, rounded to two decimals, and the id. */
  predicate SaysCommand(m: map<Text, Text>, c: Command, rid: Option<Text>) {
    && NumberAny(m, ["target_temp"]) == Ok(Round2(c.temperature))
    && NumberAny(m, ["stir_speed"]) == Ok(Round2(c.stirrer))
    && NumberAny(m, ["shake_speed"]) == Ok(Round2(c.shake))
    && NumberAny(m, ["target_pressure"]) == Ok(Round2(c.pressure))
    && NumberAny(m, ["heat_time"]) == Ok(Round2(c.heat))
    && NumberAny(m, ["hold_time"]) == Ok(Round2(c.hold))
    && NumberAny(m, ["cool_time"]) == Ok(Round2(c.cool))
    && Required(m, "v") == Ok("1")
    && ("rid" in m <==> rid.Some?) && (rid.Some? ==> m["rid"] == rid.value)
  }

  lemma CommandNumberReads(c: Command, rid: Option<Text>, i: nat, key: Text)
    requires i < |CommandKeys()| && key == CommandKeys()[i]
    ensures NumberAny(MapOf(CommandFields(c, rid)), [key]) == Ok(Round2(CommandNumbers(c)[i]))
  {
    CommandLookup(c, rid, i);
    PrintParse(CommandNumbers(c)[i]);
  }

  lemma HeatTimeReads(c: Command, rid: Option<Text>)
    ensures NumberAny(MapOf(CommandFields(c, rid)), ["heat_time"]) == Ok(Round2(c.heat))
  {
    CommandNumberReads(c, rid, 0, "heat_time");
  }

  lemma HoldTimeReads(c: Command, rid: Option<Text>)
    ensures NumberAny(MapOf(CommandFields(c, rid)), ["hold_time"]) == Ok(Round2(c.hold))
  {
    CommandNumberReads(c, rid, 1, "hold_time");
  }

  lemma CoolTimeReads(c: Command, rid: Option<Text>)
    ensures NumberAny(MapOf(CommandFields(c, rid)), ["cool_time"]) == Ok(Round2(c.cool))
  {
    CommandNumberReads(c, rid, 2, "cool_time");
  }

  lemma SpeedsRead(c: Command, rid: Option<Text>)
    ensures
      var m := MapOf(CommandFields(c, rid));
      && NumberAny(m, ["stir_speed"]) == Ok(Round2(c.stirrer)) && NumberAny(m, ["shake_speed"]) == Ok(Round2(c.shake))
  {
    CommandNumberReads(c, rid, 4, "stir_speed");
    CommandNumberReads(c, rid, 5, "shake_speed");
  }

  lemma TargetsRead(c: Command, rid: Option<Text>)
    ensures
      var m := MapOf(CommandFields(c, rid));
      && NumberAny(m, ["target_temp"]) == Ok(Round2(c.temperature))
      && NumberAny(m, ["target_pressure"]) == Ok(Round2(c.pressure))
  {
    CommandNumberReads(c, rid, 3, "target_temp");
    CommandNumberReads(c, rid, 6, "target_pressure");
  }

  lemma CommandFieldsSay(c: Command, rid: Option<Text>)
    ensures SaysCommand(MapOf(CommandFields(c, rid)), c, rid)
  {
    CommandHeadLookup(c, rid);
    HeatTimeReads(c, rid);
    HoldTimeReads(c, rid);
    CoolTimeReads(c, rid);
    SpeedsRead(c, rid);
    TargetsRead(c, rid);
  }

  /**
   A built command reads back, every number under its own key rounded to two decimals and the request id as given, if
   and only if its prefix and id fit the grammar.
   */
  lemma CommandRoundTrip(prefix: Text, c: Command, rid: Option<Text>, checksum: bool)
    ensures
      var r := FieldsOf(BuildCommand(prefix, c, rid, checksum), prefix, checksum);
      r.Ok? && SaysCommand(r.value, c, rid) <==>
      Lacks(prefix, '|') && LeadingSpace(prefix) == 0 && (rid.Some? ==> Lacks(rid.value, '|'))
  {
    var line := BuildCommand(prefix, c, rid, checksum);
    var r := FieldsOf(line, prefix, checksum);
    if r.Ok? { AcceptedTexts(line, prefix, checksum, "rid"); }
    if Lacks(prefix, '|') && LeadingSpace(prefix) == 0 && (rid.Some? ==> Lacks(rid.value, '|')) {
      CommandFieldsClean(c, rid);
      FrameParses(prefix, CommandFields(c, rid), checksum);
      CommandFieldsSay(c, rid);
    }
  }

  // ---------- the two kinds of upstream frame ----------

  /** Whatever prefix and checksum setting a parser expects, it sees no key that the frame was not built with. */
  lemma OnlyBuiltKeys(prefix: Text, fs: seq<Field>, built: bool, expected: Text, checksum: bool, key: Text)
    requires Lacks(prefix, '|') && AreClean(fs) && fs != [] && forall i :: 0 <= i < |fs| ==> fs[i].key != key
    ensures
      var r := FieldsOf(Frame(prefix, fs, built), expected, checksum);
      r.Ok? ==> key !in r.value
  {
    if built { ScanOfChecked(prefix, fs); } else { ScanOfPlain(prefix, fs); }
    MapOfKeys(fs, key);
    MapOfKeys(TrimLast(fs), key);
  }

  /** No built sample is taken for an acknowledgement, whatever prefix and checksum setting the parser expects. */
  lemma SampleIsNoAck(prefix: Text, s: Sample, ms: int, built: bool, expected: Text, checksum: bool)
    requires Lacks(prefix, '|')
    ensures ParseAck(BuildSample(prefix, s, ms, built), expected, checksum).Err?
  {
    var fs := SampleFields(s, ms);
    SampleFieldsClean(s, ms);
    forall i | 0 <= i < |fs| ensures fs[i].key != "type" {
      assert fs[i].key == SampleKeys()[i] && SampleKeys()[3][1] == 'e' && "type"[1] == 'y';
    }
    OnlyBuiltKeys(prefix, fs, built, expected, checksum, "type");
  }

  lemma SampleNeedsShake(m: map<Text, Text>)
    requires "shake_speed" !in m && "shake" !in m
    ensures SampleFrom(m).Err?
  {
    var keys := ["shake_speed", "shake"];
    assert keys[0] == "shake_speed" && keys[1..] == ["shake"] && ["shake"][1..] == [];
    assert AnyOf(m, ["shake"]) == AnyOf(m, []);
    assert AnyOf(m, keys).Err?;
  }

  /** No built acknowledgement is taken for a sample. */
  lemma AckIsNoSample(prefix: Text, a: Ack, built: bool, expected: Text, checksum: bool)
    requires Lacks(prefix, '|') && Lacks(a.rid, '|') && (a.error.Some? ==> Lacks(a.error.value, '|'))
    ensures ParseSample(BuildAck(prefix, a, built), expected, checksum).Err?
  {
    var fs := AckFields(a);
    AckFieldsClean(a);
    assert forall i :: 0 <= i < |fs| ==> |fs[i].key| < 5;
    OnlyBuiltKeys(prefix, fs, built, expected, checksum, "shake_speed");
    OnlyBuiltKeys(prefix, fs, built, expected, checksum, "shake");
    var r := FieldsOf(BuildAck(prefix, a, built), expected, checksum);
    if r.Ok? { SampleNeedsShake(r.value); }
  }

  // ---------- one changed byte ----------

  lemma SpaceStartsEarly(t: Text, n: nat)
    requires n <= |t|
    ensures LeadingSpace(t[..n]) > 0 ==> LeadingSpace(t) > 0
    ensures n >= 3 ==> LeadingSpace(t[..n]) == LeadingSpace(t)
  {
  }

  lemma FirstPart(a: Text, rest: Text)
    requires Lacks(a, '|')
    ensures Split(a + "|" + rest)[0] == a
  {
    SplitAtBar(a, rest);
    SplitWhole(a);
  }

  /** A separator put inside the prefix ends every white-space run before it, and there is none. */
  lemma BarInPrefix(prefix: Text, rest: Text, i: nat)
    requires i < |prefix| && LeadingSpace(prefix) == 0
    ensures var text := prefix[i := '|'] + "|" + rest; TrimStart(text) == text
  {
    var head, tail := prefix[..i], "|" + (prefix[i + 1..] + "|" + rest);
    SpaceStartsEarly(prefix, i);
    assert TrimStart(head) == head;
    TrimStartAtBar(head, tail);
    assert prefix[i := '|'] + "|" + rest == head + tail;
  }

  /** Any other byte put inside the prefix leaves a first part that is changed or shorter. */
  lemma ByteInPrefix(prefix: Text, rest: Text, i: nat, y: char)
    requires i < |prefix| && y != prefix[i] && y != '|' && Lacks(prefix, '|')
    ensures Split(TrimStart(prefix[i := y] + "|" + rest))[0] != prefix
  {
    var p := prefix[i := y];
    TrimStartAtBar(p, "|" + rest);
    assert p + ("|" + rest) == p + "|" + rest && TrimStart(p) + ("|" + rest) == TrimStart(p) + "|" + rest;
    TrimStartLacks(p);
    FirstPart(TrimStart(p), rest);
    TrimStartExact(p);
  }

  /** A change inside the prefix that makes the line lose white space leaves another first part. */
  lemma ChangedPrefix(prefix: Text, rest: Text, i: nat, y: char)
    requires i < |prefix| && y != prefix[i] && Lacks(prefix, '|') && LeadingSpace(prefix) == 0
    ensures
      var text := prefix[i := y] + "|" + rest;
      TrimStart(text) == text || Split(TrimStart(text))[0] != prefix
  {
    if y == '|' { BarInPrefix(prefix, rest, i); } else { ByteInPrefix(prefix, rest, i, y); }
  }

  lemma TrimBeforeVersion(head: Text, rest: Text)
    ensures TrimStart(head + "v=1" + "|" + rest) == TrimStart(head) + "v=1" + "|" + rest
  {
    var u, after := TrimStart(head), "=1" + "|" + rest;
    assert "v=1" == ['v'] + "=1";
    assert head + "v=1" + "|" + rest == head + ['v'] + after;
    TrimStartStops(head, 'v', after);
    assert u + ['v'] + after == u + "v=1" + "|" + rest;
  }

  /** A separator after the prefix that turns into white space, or into part of it, leaves another first part. */
  lemma ChangedSeparator(prefix: Text, rest: Text, y: char)
    requires y != '|' && Lacks(prefix, '|') && LeadingSpace(prefix) == 0
    ensures Split(TrimStart(prefix + [y] + "v=1" + "|" + rest))[0] != prefix
  {
    var head := prefix + [y];
    var u := TrimStart(head);
    TrimBeforeVersion(head, rest);
    TrimStartLacks(head);
    FirstPart(u + "v=1", rest);
    assert u == head || |u| < |head| by { TrimStartExact(head); }
    assert LeadingSpace(head) == 0 ==> u == head;
    SpaceStartsEarly(head, |prefix|);
    assert head[..|prefix|] == prefix;
  }

  /** Trimming never hides a change: either nothing is trimmed, or the first part is no longer the prefix. */
  lemma TrimmingShows(prefix: Text, rest: Text, i: nat, y: char)
    requires var body := prefix + "|v=1|" + rest; i < |body| && y != body[i]
    requires Lacks(prefix, '|') && LeadingSpace(prefix) == 0
    ensures
      var text := (prefix + "|v=1|" + rest)[i := y];
      TrimStart(text) == text || Split(TrimStart(text))[0] != prefix
  {
    var body := prefix + "|v=1|" + rest;
    var text := body[i := y];
    if i < |prefix| {
      assert text == prefix[i := y] + "|" + ("v=1|" + rest);
      ChangedPrefix(prefix, "v=1|" + rest, i, y);
    } else if i == |prefix| {
      assert text == prefix + [y] + "v=1" + "|" + rest;
      ChangedSeparator(prefix, rest, y);
    } else {
      var tail := text[|prefix|..];
      assert text == prefix + tail && tail[0] == '|';
      TrimStartAtBar(prefix, tail);
    }
  }

  /** Any text followed by another text's checksum is refused unless, trimmed, it has that text's checksum. */
  lemma ChecksumIsCompared(text: Text, body: Text, prefix: Text)
    requires FieldsOf(text + ChecksumTail(ChecksumHex(body)), prefix, true).Ok?
    ensures Split(TrimStart(text))[0] == prefix && Checksum(TrimStart(text)) == Checksum(body)
  {
    var parts := Split(TrimStart(text));
    ChecksumHexIsText(body);
    ChecksumTailSplits(text, ChecksumHex(body));
    ScanOfChecksum(parts, ChecksumHex(body));
    JoinSplit(TrimStart(text));
    assert (parts + ["chk=" + ChecksumHex(body)])[..|parts|] == parts;
    HexIsExact(body, TrimStart(text));
  }

  lemma CorruptBodyIsRefused(prefix: Text, rest: Text, i: nat, y: char)
    requires
      var body := prefix + "|v=1|" + rest;
      i < |body| && IsByte(body[i]) && IsByte(y) && y != body[i]
    ensures
      var body := prefix + "|v=1|" + rest;
      FieldsOf(body[i := y] + ChecksumTail(ChecksumHex(body)), prefix, true).Err?
  {
    var body := prefix + "|v=1|" + rest;
    var text := body[i := y];
    if FieldsOf(text + ChecksumTail(ChecksumHex(body)), prefix, true).Ok? {
      AcceptedTexts(text + ChecksumTail(ChecksumHex(body)), prefix, true, "v");
      ChecksumIsCompared(text, body, prefix);
      TrimmingShows(prefix, rest, i, y);
      OneByteChangesChecksum(body, i, y);
    }
  }

  datatype Message =
    | AckMessage(ack: Ack)
    | SampleMessage(sample: Sample, ms: int)
    | CommandMessage(command: Command, rid: Option<Text>)

  function FieldsFor(m: Message): seq<Field> {
    match m
    case AckMessage(ack) => AckFields(ack)
    case SampleMessage(sample, ms) => SampleFields(sample, ms)
    case CommandMessage(command, rid) => CommandFields(command, rid)
  }

  function Build(prefix: Text, m: Message, checksum: bool): Text {
    match m
    case AckMessage(ack) => BuildAck(prefix, ack, checksum)
    case SampleMessage(sample, ms) => BuildSample(prefix, sample, ms, checksum)
    case CommandMessage(command, rid) => BuildCommand(prefix, command, rid, checksum)
  }

  lemma {:induction false} TailStartsWithVersion(fs: seq<Field>)
    requires |fs| >= 2 && fs[0] == Field("v", "1")
    ensures "|v=1|" <= Tail(fs)
  {
    var init := fs[..|fs| - 1];
    if |fs| == 2 {
      assert init[..0] == [] && Tail(init) == [] + "|" + PartOf(Field("v", "1")) == "|v=1";
    } else {
      TailStartsWithVersion(init);
    }
  }

  lemma ChangedFrameIsRefused(prefix: Text, fs: seq<Field>, i: nat, y: char)
    requires |fs| >= 2 && fs[0] == Field("v", "1")
    requires var body := Body(prefix, fs); i < |body| && IsByte(body[i]) && IsByte(y) && y != body[i]
    ensures FieldsOf(Frame(prefix, fs, true)[i := y], prefix, true).Err?
  {
    var body := Body(prefix, fs);
    TailStartsWithVersion(fs);
    var rest := Tail(fs)[5..];
    assert body == prefix + "|v=1|" + rest;
    CorruptBodyIsRefused(prefix, rest, i, y);
    assert Frame(prefix, fs, true)[i := y] == body[i := y] + ChecksumTail(ChecksumHex(body));
  }

  /**
   Replacing any one byte before `|chk=` of a built checksummed frame by any other byte makes both parsers refuse it,
   whether or not the change moves a separator, forges a `chk` field or turns the start of the line into white space.
   */
  lemma OneChangedByteIsRefused(prefix: Text, m: Message, i: nat, y: char)
    requires i < |Body(prefix, FieldsFor(m))| && IsByte(y)
    requires IsByte(Build(prefix, m, true)[i]) && y != Build(prefix, m, true)[i]
    ensures
      var line := Build(prefix, m, true)[i := y];
      ParseAck(line, prefix, true).Err? && ParseSample(line, prefix, true).Err?
  {
    assert Build(prefix, m, true) == Frame(prefix, FieldsFor(m), true);
    ChangedFrameIsRefused(prefix, FieldsFor(m), i, y);
  }

  /** The checksum in lower-case digits. */
  function LowerHex(s: Text): Text {
    ChecksumHexIsText(s);
    [Lower(ChecksumHex(s)[0]), Lower(ChecksumHex(s)[1])]
  }

  lemma LowerIsSolid(c: char)
    requires IsSolid(c) && c != '|'
    ensures IsSolid(Lower(c)) && Lower(c) != '|' && Lower(Lower(c)) == Lower(c)
  {
  }

  lemma LowerHexIsText(s: Text)
    ensures IsHexText(LowerHex(s)) && EqIgnoreCase(LowerHex(s), ChecksumHex(s))
  {
    ChecksumHexIsText(s);
    HexFromFold(0, s);
    HexDigitsDiffer(Checksum(s) / 16 % 16, 0);
    LowerIsSolid(ChecksumHex(s)[0]);
    LowerIsSolid(ChecksumHex(s)[1]);
  }

  lemma MatchingIsVerified(parts: seq<Text>, fields: map<Text, Text>, hex: Text, k: nat)
    requires 1 <= k < |parts| && EqIgnoreCase(hex, ChecksumHex(Join(parts[..k])))
    ensures
      var scan := Some(Scan(fields, Some((hex, k))));
      PointsInto(scan, parts) && Checked(parts, scan, parts[0], true) == Ok(fields)
  {
  }

  /** A frame whose checksum is written in lower-case digits is read like the built one. */
  lemma LowerCaseChecksumIsAccepted(prefix: Text, fs: seq<Field>)
    requires Lacks(prefix, '|') && LeadingSpace(prefix) == 0 && AreClean(fs) && fs != []
    ensures FieldsOf(Body(prefix, fs) + ChecksumTail(LowerHex(Body(prefix, fs))), prefix, true) == Ok(MapOf(fs))
  {
    var body := Body(prefix, fs);
    var hex := LowerHex(body);
    LowerHexIsText(body);
    LowerTailReads(prefix, fs, hex);
    var line := body + ChecksumTail(hex);
    MatchingIsVerified(Split(Trim(line)), MapOf(fs), hex, |fs| + 1);
  }

  lemma LowerTailReads(prefix: Text, fs: seq<Field>, hex: Text)
    requires Lacks(prefix, '|') && LeadingSpace(prefix) == 0 && AreClean(fs) && fs != [] && IsHexText(hex)
    ensures ReadsAs(Body(prefix, fs) + ChecksumTail(hex), prefix, MapOf(fs), hex, Body(prefix, fs), |fs| + 1)
  {
    var parts := Parts(prefix, fs);
    ChecksumTailSplits(Body(prefix, fs), hex);
    TrimStartOfBody(prefix, fs, []);
    assert Body(prefix, fs) + [] == Body(prefix, fs);
    CleanParts(fs);
    BodySplits(prefix, fs);
    PartsLength(prefix, fs);
    ScanOfFields(prefix, fs);
    ScanOfChecksum(parts, hex);
    PartsJoin(prefix, fs);
    assert (parts + ["chk=" + hex])[..|parts|] == parts;
    PartsReadAs(Body(prefix, fs) + ChecksumTail(hex), parts + ["chk=" + hex], prefix, MapOf(fs), hex, Body(prefix, fs),
                |fs| + 1);
  }

  /** A frame with its checksum field, and one more field behind it. */
  function Appended(prefix: Text, fs: seq<Field>, f: Field): seq<Field> {
    fs + [Field("chk", ChecksumHex(Body(prefix, fs)))] + [f]
  }

  lemma PartsOfTwoMore(prefix: Text, fs: seq<Field>, f: Field, g: Field)
    ensures Parts(prefix, fs + [f] + [g]) == Parts(prefix, fs) + [PartOf(f)] + [PartOf(g)]
  {
    var mid := fs + [f];
    assert mid[..|fs|] == fs && (mid + [g])[..|mid|] == mid;
  }

  lemma AppendedLacksBars(fs: seq<Field>, hex: Text, f: Field, i: nat)
    requires AreClean(fs) && IsClean(f) && IsHexText(hex) && i < |fs| + 2
    ensures Lacks(PartOf((fs + [Field("chk", hex)] + [f])[i]), '|')
  {
    if i < |fs| { CleanParts(fs); }
  }

  lemma AppendedSplits(prefix: Text, fs: seq<Field>, hex: Text, f: Field)
    requires Lacks(prefix, '|') && LeadingSpace(prefix) == 0
    requires AreClean(fs) && IsClean(f) && TrailingSpace(f.value) == 0
    requires IsHexText(hex)
    ensures Split(Trim(Frame(prefix, fs + [Field("chk", hex)] + [f], false))) == AppendedParts(prefix, fs, hex, f)
  {
    var chk := Field("chk", hex);
    var all := fs + [chk] + [f];
    assert TrimLast(all) == all by { TrimEndExact(f.value); }
    forall i | 0 <= i < |all| ensures Lacks(PartOf(TrimLast(all)[i]), '|') {
      AppendedLacksBars(fs, hex, f, i);
    }
    PlainFrameSplits(prefix, all);
    PartsOfTwoMore(prefix, fs, chk, f);
  }

  lemma ScanOfAppended(parts: seq<Text>, fields: map<Text, Text>, hex: Text, f: Field)
    requires |parts| >= 1 && ScanParts(parts, |parts|) == Some(Scan(fields, None)) && IsClean(f)
    ensures
      var all := parts + [PartOf(Field("chk", hex))] + [PartOf(f)];
      ScanParts(all, |all|) == Some(Scan(fields[f.key := f.value], Some((hex, |parts|))))
  {
    var mid := parts + ["chk=" + hex];
    assert PartOf(Field("chk", hex)) == "chk=" + hex;
    ScanOfChecksum(parts, hex);
    ScanIgnoresLater(mid, [PartOf(f)], |mid|);
    SplitOnceKeyValue(f.key, f.value);
  }

  lemma PartsReadAs(
      line: Text, parts: seq<Text>, first: Text, fields: map<Text, Text>, hex: Text, text: Text, k: nat)
    requires Split(Trim(line)) == parts && 1 <= k < |parts| && parts[0] == first && Join(parts[..k]) == text
    requires ScanParts(parts, |parts|) == Some(Scan(fields, Some((hex, k))))
    ensures ReadsAs(line, first, fields, hex, text, k)
  {
  }

  function AppendedParts(prefix: Text, fs: seq<Field>, hex: Text, f: Field): seq<Text> {
    Parts(prefix, fs) + [PartOf(Field("chk", hex))] + [PartOf(f)]
  }

  lemma AppendedPartsScan(prefix: Text, fs: seq<Field>, hex: Text, f: Field)
    requires AreClean(fs) && IsClean(f)
    ensures
      var all := AppendedParts(prefix, fs, hex, f);
      |all| == |fs| + 3 && ScanParts(all, |all|) == Some(Scan(MapOf(fs)[f.key := f.value], Some((hex, |fs| + 1))))
  {
    PartsLength(prefix, fs);
    ScanOfFields(prefix, fs);
    ScanOfAppended(Parts(prefix, fs), MapOf(fs), hex, f);
  }

  lemma AppendedPartsJoin(prefix: Text, fs: seq<Field>, hex: Text, f: Field)
    requires Lacks(prefix, '|') && AreClean(fs)
    ensures
      var all := AppendedParts(prefix, fs, hex, f);
      |all| == |fs| + 3 && all[0] == prefix && Join(all[..|fs| + 1]) == Body(prefix, fs)
  {
    PartsLength(prefix, fs);
    PartsJoin(prefix, fs);
    assert AppendedParts(prefix, fs, hex, f)[..|fs| + 1] == Parts(prefix, fs);
  }

  lemma AppendedReads(prefix: Text, fs: seq<Field>, hex: Text, f: Field)
    requires Lacks(prefix, '|') && LeadingSpace(prefix) == 0
    requires AreClean(fs) && IsClean(f) && TrailingSpace(f.value) == 0
    requires IsHexText(hex)
    ensures ReadsAs(Frame(prefix, fs + [Field("chk", hex)] + [f], false), prefix, MapOf(fs)[f.key := f.value],
                    hex, Body(prefix, fs), |fs| + 1)
  {
    var line, all := Frame(prefix, fs + [Field("chk", hex)] + [f], false), AppendedParts(prefix, fs, hex, f);
    AppendedSplits(prefix, fs, hex, f);
    AppendedPartsScan(prefix, fs, hex, f);
    AppendedPartsJoin(prefix, fs, hex, f);
    PartsReadAs(line, all, prefix, MapOf(fs)[f.key := f.value], hex, Body(prefix, fs), |fs| + 1);
  }

  lemma PartsJoin(prefix: Text, fs: seq<Field>)
    requires Lacks(prefix, '|') && AreClean(fs)
    ensures |Parts(prefix, fs)| >= 1 && Join(Parts(prefix, fs)) == Body(prefix, fs)
  {
    CleanParts(fs);
    BodySplits(prefix, fs);
    JoinSplit(Body(prefix, fs));
  }

  /** What stands behind the checksum is not protected: a field added there is read, and overrides the frame's own. */
  lemma FieldBehindChecksumIsRead(prefix: Text, fs: seq<Field>, f: Field)
    requires Lacks(prefix, '|') && LeadingSpace(prefix) == 0
    requires AreClean(fs) && IsClean(f) && TrailingSpace(f.value) == 0
    ensures FieldsOf(Frame(prefix, Appended(prefix, fs, f), false), prefix, true) == Ok(MapOf(fs)[f.key := f.value])
  {
    ChecksumHexIsText(Body(prefix, fs));
    AppendedReads(prefix, fs, ChecksumHex(Body(prefix, fs)), f);
    var line := Frame(prefix, Appended(prefix, fs, f), false);
    LineIsVerified(line, prefix, MapOf(fs)[f.key := f.value], Body(prefix, fs), |fs| + 1);
  }

  // ---------- the handshake ----------

  /** What one poll of the line yields: nothing (or a read error), or a line. */
  datatype Read = Silence | Line(text: Text)

  datatype AckStatus = Confirmed | Rejected(reason: Text) | Timeout

  type Parser = Text -> Result<Ack>

  predicate Answers(r: Read, rid: Text, parse: Parser) {
    r.Line? && parse(r.text).Ok? && parse(r.text).value.rid == rid
  }

  function ReasonOf(error: Option<Text>): Text {
    if error.Some? then error.value else "downstream rejected command"
  }

  function StatusOf(a: Ack): AckStatus { if a.ok then Confirmed else Rejected(ReasonOf(a.error)) }

  /** The first answer to the request decides; without one the handshake times out. */
  predicate IsOutcome(status: AckStatus, polls: seq<Read>, rid: Text, parse: Parser) {
    && (status.Timeout? <==> forall i :: 0 <= i < |polls| ==> !Answers(polls[i], rid, parse))
    && forall i :: 0 <= i < |polls| && Answers(polls[i], rid, parse)
         && (forall j :: 0 <= j < i ==> !Answers(polls[j], rid, parse))
         ==> status == StatusOf(parse(polls[i].text).value)
  }

  /** The wait loop of `write_targets_acknowledged`, over the polls that fit before the deadline. */
  method AwaitAck(polls: seq<Read>, rid: Text, parse: Parser) returns (status: AckStatus)
    ensures IsOutcome(status, polls, rid, parse)
  {
    for n := 0 to |polls|
      invariant forall i :: 0 <= i < n ==> !Answers(polls[i], rid, parse)
    {
      if polls[n].Line? {
        var ack := parse(polls[n].text);
        if ack.Ok? && ack.value.rid == rid {
          if ack.value.ok { return Confirmed; }
          return Rejected(ReasonOf(ack.value.error));
        }
      }
    }
    return Timeout;
  }

  function AckParser(prefix: Text, checksum: bool): Parser {
    line => ParseAck(line, prefix, checksum)
  }

  /** What the line may carry before the answer: silence, samples, other answers, frames with a changed byte. */
  datatype Noise =
    | Quiet
    | SampleSent(sample: Sample, ms: int)
    | OtherAnswer(ack: Ack)
    | Damaged(message: Message, at: nat, byte: char)

  predicate IsNoise(n: Noise, rid: Text, prefix: Text, checksum: bool) {
    match n
    case Quiet => true
    case SampleSent(_, _) => true
    case OtherAnswer(ack) => ack.rid != rid && AckTextsFit(prefix, ack, checksum)
    case Damaged(m, at, byte) =>
      checksum && at < |Body(prefix, FieldsFor(m))| && IsByte(byte) && IsByte(Build(prefix, m, true)[at])
      && byte != Build(prefix, m, true)[at]
  }

  function Heard(n: Noise, rid: Text, prefix: Text, checksum: bool): Read
    requires IsNoise(n, rid, prefix, checksum)
  {
    match n
    case Quiet => Silence
    case SampleSent(sample, ms) => Line(BuildSample(prefix, sample, ms, checksum))
    case OtherAnswer(ack) => Line(BuildAck(prefix, ack, checksum))
    case Damaged(m, at, byte) => Line(Build(prefix, m, true)[at := byte])
  }

  lemma NoiseIsNoAnswer(n: Noise, rid: Text, prefix: Text, checksum: bool)
    requires IsNoise(n, rid, prefix, checksum) && Lacks(prefix, '|')
    ensures !Answers(Heard(n, rid, prefix, checksum), rid, AckParser(prefix, checksum))
  {
    match n
    case Quiet =>
    case SampleSent(sample, ms) => SampleIsNoAck(prefix, sample, ms, checksum, prefix, checksum);
    case OtherAnswer(ack) => AckRoundTrip(prefix, ack, checksum);
    case Damaged(m, at, byte) => OneChangedByteIsRefused(prefix, m, at, byte);
  }

  /** However much noise comes first, the handshake ends with what the downstream answered to this very request. */
  lemma HandshakeEndsWithItsAnswer(
      noise: seq<Noise>, answer: Ack, polls: seq<Read>, prefix: Text, checksum: bool, status: AckStatus)
    requires AckTextsFit(prefix, answer, checksum) && |noise| < |polls|
    requires forall i :: 0 <= i < |noise| ==>
               && IsNoise(noise[i], answer.rid, prefix, checksum)
               && polls[i] == Heard(noise[i], answer.rid, prefix, checksum)
    requires polls[|noise|] == Line(BuildAck(prefix, answer, checksum))
    requires IsOutcome(status, polls, answer.rid, AckParser(prefix, checksum))
    ensures status == if answer.ok then Confirmed
                      else Rejected(match answer.error
                                    case Some(text) => text
                                    case None => "downstream rejected command")
  {
    var parse := AckParser(prefix, checksum);
    forall i | 0 <= i < |noise| ensures !Answers(polls[i], answer.rid, parse) {
      NoiseIsNoAnswer(noise[i], answer.rid, prefix, checksum);
    }
    AckRoundTrip(prefix, answer, checksum);
    assert Answers(polls[|noise|], answer.rid, parse);
  }
}
