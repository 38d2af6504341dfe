/**
 The ESP32 line protocol of device.rs: building sample, command and acknowledgement frames, the field loop and the XOR
 checksum test the parsers share, and how a built frame reads back.
 */
module Frames {
  import opened Common
  import opened Texts

  datatype ParseError =
    | WrongPrefix | BadField | MissingChecksum | WrongChecksum | MissingField | WrongVersion | NotAnAck | BadFlag
    | BadNumber | BadTilt

  datatype Result<+T> = Ok(value: T) | Err(error: ParseError) {
    predicate IsFailure() { Err? }
    function PropagateFailure<U>(): Result<U>
      requires Err?
    {
      Err(error)
    }
    function Extract(): T
      requires Ok?
    {
      value
    }
  }

  // ---------- building ----------

  datatype Field = Field(key: Text, value: Text)

  function PartOf(f: Field): Text { f.key + "=" + f.value }

  function Tail(fs: seq<Field>): Text {
    if fs == [] then [] else Tail(fs[..|fs| - 1]) + "|" + PartOf(fs[|fs| - 1])
  }

  function Body(prefix: Text, fs: seq<Field>): Text { prefix + Tail(fs) }

  function ChecksumTail(hex: Text): Text { "|chk=" + hex + "\n" }

  function Frame(prefix: Text, fs: seq<Field>, checksum: bool): Text {
    Body(prefix, fs) + if checksum then ChecksumTail(ChecksumHex(Body(prefix, fs))) else "\n"
  }

  datatype Ack = Ack(rid: Text, ok: bool, error: Option<Text>)

  function AckFields(a: Ack): seq<Field> {
    [Field("v", "1"), Field("type", "ack"), Field("rid", a.rid), Field("ok", if a.ok then "1" else "0")]
    + if a.error.Some? then [Field("err", a.error.value)] else []
  }

  /** build_esp32_ack_frame */
  function BuildAck(prefix: Text, a: Ack, checksum: bool): Text { Frame(prefix, AckFields(a), checksum) }

  datatype Sample = Sample(temperature: real, pressure: real, stirrer: real, shake: real, tilt: nat, flow: real,
                           concentration: real, ph: real)

  function Zip(keys: seq<Text>, values: seq<Text>): (fs: seq<Field>)
    requires |keys| == |values|
    ensures |fs| == |keys| && forall i :: 0 <= i < |fs| ==> fs[i] == Field(keys[i], values[i])
  {
    seq(|keys|, i requires 0 <= i < |keys| => Field(keys[i], values[i]))
  }

  function SampleKeys(): seq<Text> {
    ["v", "seq", "ms", "temp", "pressure", "stir_speed", "shake_speed", "tilt_state", "flow_rate",
     "product_concentration", "ph"]
  }

  function SampleValues(s: Sample, ms: int): seq<Text> {
    ["1", "0", PrintNat(if ms < 0 then 0 else ms), Print2(s.temperature), Print2(s.pressure), Print2(s.stirrer),
     Print2(s.shake), PrintNat(s.tilt), Print2(s.flow), Print2(s.concentration), Print2(s.ph)]
  }

  function SampleFields(s: Sample, ms: int): seq<Field> { Zip(SampleKeys(), SampleValues(s, ms)) }

  /** build_esp32_sample_frame */
  function BuildSample(prefix: Text, s: Sample, ms: int, checksum: bool): Text {
    Frame(prefix, SampleFields(s, ms), checksum)
  }

  datatype Command = Command(heat: real, hold: real, cool: real, temperature: real, stirrer: real, shake: real,
                             pressure: real)

  function CommandKeys(): seq<Text> {
    ["heat_time", "hold_time", "cool_time", "target_temp", "stir_speed", "shake_speed", "target_pressure"]
  }

  function CommandValues(c: Command): seq<Text> {
    [Print2(c.heat), Print2(c.hold), Print2(c.cool), Print2(c.temperature), Print2(c.stirrer), Print2(c.shake),
     Print2(c.pressure)]
  }

  function RidFields(rid: Option<Text>): seq<Field> { if rid.Some? then [Field("rid", rid.value)] else [] }

  function CommandFields(c: Command, rid: Option<Text>): seq<Field> {
    [Field("v", "1")] + RidFields(rid) + Zip(CommandKeys(), CommandValues(c))
  }

  /** build_esp32_command and build_esp32_command_with_rid */
  function BuildCommand(prefix: Text, c: Command, rid: Option<Text>, checksum: bool): Text {
    Frame(prefix, CommandFields(c, rid), checksum)
  }

  // ---------- parsing ----------

  /** The fields read so far, and the last `chk` field with its position. */
  datatype Scan = Scan(fields: map<Text, Text>, chk: Option<(Text, nat)>)

  function AddPart(scan: Scan, part: Text, index: nat): Option<Scan> {
    match SplitOnce(part)
    case None => None
    case Some(kv) =>
      Some(if kv.0 == "chk" then scan.(chk := Some((kv.1, index))) else scan.(fields := scan.fields[kv.0 := kv.1]))
  }

  function ScanParts(parts: seq<Text>, n: nat): (r: Option<Scan>)
    requires 1 <= n <= |parts|
    ensures r.Some? && r.value.chk.Some? ==> 1 <= r.value.chk.value.1 < n
  {
    if n == 1 then Some(Scan(map[], None))
    else match ScanParts(parts, n - 1)
      case None => None
      case Some(scan) => AddPart(scan, parts[n - 1], n - 1)
  }

  function Verified(parts: seq<Text>, scan: Scan, checksum: bool): Result<map<Text, Text>>
    requires scan.chk.Some? ==> 1 <= scan.chk.value.1 < |parts|
  {
    if !checksum then Ok(scan.fields)
    else match scan.chk
      case None => Err(MissingChecksum)
      case Some(chk) =>
        if EqIgnoreCase(chk.0, ChecksumHex(Join(parts[..chk.1]))) then Ok(scan.fields) else Err(WrongChecksum)
  }

  predicate PointsInto(scan: Option<Scan>, parts: seq<Text>) {
    scan.Some? && scan.value.chk.Some? ==> 1 <= scan.value.chk.value.1 < |parts|
  }

  function Checked(parts: seq<Text>, scan: Option<Scan>, prefix: Text, checksum: bool): Result<map<Text, Text>>
    requires |parts| >= 1 && PointsInto(scan, parts)
  {
    if parts[0] != prefix then Err(WrongPrefix)
    else if scan.None? then Err(BadField)
    else Verified(parts, scan.value, checksum)
  }

  /** What the field loop reads from a line. */
  function ScanOf(line: Text): (r: Option<Scan>)
    ensures PointsInto(r, Split(Trim(line)))
  {
    var parts := Split(Trim(line));
    ScanParts(parts, |parts|)
  }

  /** The part the two parsers share: trimming, splitting, the field loop and the checksum test. */
  function FieldsOf(line: Text, prefix: Text, checksum: bool): Result<map<Text, Text>> {
    Checked(Split(Trim(line)), ScanOf(line), prefix, checksum)
  }

  /** The field loop of both parsers: later fields replace earlier ones, a part without `=` ends it. */
  method ScanFields(parts: seq<Text>) returns (r: Option<Scan>)
    requires |parts| >= 1
    ensures r == ScanParts(parts, |parts|)
  {
    var fields: map<Text, Text> := map[];
    var chk: Option<(Text, nat)> := None;
    var index := 1;
    while index < |parts|
      invariant 1 <= index <= |parts|
      invariant ScanParts(parts, index) == Some(Scan(fields, chk))
    {
      var kv := SplitOnce(parts[index]);
      if kv.None? {
        FailureStays(parts, index + 1, |parts|);
        return None;
      }
      if kv.value.0 == "chk" { chk := Some((kv.value.1, index)); }
      else { fields := fields[kv.value.0 := kv.value.1]; }
      index := index + 1;
    }
    return Some(Scan(fields, chk));
  }

  /** The part both parsers share, up to the checksum test. */
  method ReadFields(line: Text, prefix: Text, checksum: bool) returns (r: Result<map<Text, Text>>)
    ensures r == FieldsOf(line, prefix, checksum)
  {
    var parts := Split(Trim(line));
    if parts[0] != prefix { return Err(WrongPrefix); }
    var scan := ScanFields(parts);
    if scan.None? { return Err(BadField); }
    if checksum {
      if scan.value.chk.None? { return Err(MissingChecksum); }
      var chk := scan.value.chk.value;
      if !EqIgnoreCase(chk.0, ChecksumHex(Join(parts[..chk.1]))) { return Err(WrongChecksum); }
    }
    return Ok(scan.value.fields);
  }

  lemma {:induction false} FailureStays(parts: seq<Text>, n: nat, m: nat)
    requires 1 <= n <= m <= |parts| && ScanParts(parts, n).None?
    ensures ScanParts(parts, m).None?
  {
    if n < m { FailureStays(parts, n, m - 1); }
  }

  function Required(fields: map<Text, Text>, key: Text): Result<Text> {
    if key in fields then Ok(fields[key]) else Err(MissingField)
  }

  function FlagOf(s: Text): Result<bool> {
    if s == "1" || s == "true" then Ok(true) else if s == "0" || s == "false" then Ok(false) else Err(BadFlag)
  }

  function AckFrom(fields: map<Text, Text>): Result<Ack> {
    var version :- Required(fields, "v");
    if version != "1" then Err(WrongVersion) else
      var kind :- Required(fields, "type");
      if kind != "ack" then Err(NotAnAck) else
        var rid :- Required(fields, "rid");
        var flag :- Required(fields, "ok");
        var ok :- FlagOf(flag);
        Ok(Ack(rid, ok, if "err" in fields then Some(fields["err"]) else None))
  }

  /** parse_esp32_ack_frame */
  function ParseAck(line: Text, prefix: Text, checksum: bool): Result<Ack> {
    var fields :- FieldsOf(line, prefix, checksum);
    AckFrom(fields)
  }

  /** The value under the first of the keys that is present. */
  function AnyOf(fields: map<Text, Text>, keys: seq<Text>): Result<Text> {
    if keys == [] then Err(MissingField)
    else if keys[0] in fields then Ok(fields[keys[0]]) else AnyOf(fields, keys[1..])
  }

  function NumberOf(s: Text): Result<real> {
    match ParseNumber(s) case None => Err(BadNumber) case Some(x) => Ok(x)
  }

  function NumberAny(fields: map<Text, Text>, keys: seq<Text>): Result<real> {
    var text :- AnyOf(fields, keys);
    NumberOf(text)
  }

  function NumberOr(fields: map<Text, Text>, keys: seq<Text>, otherwise: real): Result<real> {
    if AnyOf(fields, keys).Ok? then NumberAny(fields, keys) else Ok(otherwise)
  }

  function TiltAny(fields: map<Text, Text>, keys: seq<Text>): Result<nat> {
    var text :- AnyOf(fields, keys);
    if Trim(text) == "0" then Ok(0) else if Trim(text) == "1" then Ok(1) else Err(BadTilt)
  }

  function SampleFrom(fields: map<Text, Text>): Result<Sample> {
    var version :- Required(fields, "v");
    if version != "1" then Err(WrongVersion) else
      var shake :- NumberAny(fields, ["shake_speed", "shake"]);
      var tilt :- TiltAny(fields, ["tilt_state", "tilt"]);
      var temperature :- NumberAny(fields, ["temp", "temperature"]);
      var pressure :- NumberAny(fields, ["pressure"]);
      var stirrer :- NumberAny(fields, ["stir_speed", "rpm"]);
      var flow :- NumberAny(fields, ["flow_rate", "flow"]);
      var concentration :- NumberOr(fields, ["product_concentration", "conc", "concentration"], 0.0);
      var ph :- NumberOr(fields, ["ph"], 7.0);
      Ok(Sample(temperature, pressure, stirrer, shake, tilt, flow, concentration, ph))
  }

  /** parse_esp32_frame */
  function ParseSample(line: Text, prefix: Text, checksum: bool): Result<Sample> {
    var fields :- FieldsOf(line, prefix, checksum);
    SampleFrom(fields)
  }

  // ---------- how a built frame splits ----------

  /** A field the frame grammar can carry: its texts do not contain the separators they are ended by. */
  predicate IsClean(f: Field) {
    Lacks(f.key, '=') && Lacks(f.key, '|') && f.key != "chk" && Lacks(f.value, '|')
  }

  predicate AreClean(fs: seq<Field>) { forall i :: 0 <= i < |fs| ==> IsClean(fs[i]) }

  function Parts(prefix: Text, fs: seq<Field>): seq<Text> {
    if fs == [] then [prefix] else Parts(prefix, fs[..|fs| - 1]) + [PartOf(fs[|fs| - 1])]
  }

  lemma {:induction false} BodySplits(prefix: Text, fs: seq<Field>)
    requires Lacks(prefix, '|') && forall i :: 0 <= i < |fs| ==> Lacks(PartOf(fs[i]), '|')
    ensures Split(Body(prefix, fs)) == Parts(prefix, fs)
  {
    if fs == [] {
      SplitWhole(prefix);
      assert prefix + [] == prefix;
    } else {
      var init, last := fs[..|fs| - 1], PartOf(fs[|fs| - 1]);
      BodySplits(prefix, init);
      SplitAtBar(Body(prefix, init), last);
      SplitWhole(last);
      assert Body(prefix, fs) == Body(prefix, init) + "|" + last;
    }
  }

  lemma {:induction false} TailStarts(fs: seq<Field>)
    requires fs != []
    ensures |Tail(fs)| >= 1 && Tail(fs)[0] == '|'
  {
    if |fs| > 1 { TailStarts(fs[..|fs| - 1]); }
  }

  lemma TrimStartAtBar(a: Text, tail: Text)
    requires |tail| >= 1 && tail[0] == '|'
    ensures TrimStart(a + tail) == TrimStart(a) + tail
  {
    TrimStartStops(a, '|', tail[1..]);
    assert a + tail == a + ['|'] + tail[1..];
    assert TrimStart(a) + tail == TrimStart(a) + ['|'] + tail[1..];
  }

  lemma TrimStartOfBody(prefix: Text, fs: seq<Field>, more: Text)
    requires fs != []
    ensures TrimStart(Body(prefix, fs) + more) == Body(TrimStart(prefix), fs) + more
  {
    TailStarts(fs);
    var p, tail := TrimStart(prefix), Tail(fs);
    TrimStartAtBar(prefix, tail + more);
    assert prefix + tail + more == prefix + (tail + more) && p + tail + more == p + (tail + more);
  }

  lemma TrimEndOfChecksum(body: Text, hex: Text)
    requires IsHexText(hex)
    ensures TrimEnd(body + ChecksumTail(hex)) == body + "|" + ("chk=" + hex)
  {
    var a := body + "|chk=" + hex[..1];
    assert body + ChecksumTail(hex) == a + [hex[1]] + "\n";
    TrimEndStops(a, hex[1], "\n");
    assert TrimEnd("\n") == TrimEnd([]) == [];
    assert a + [hex[1]] == body + "|" + ("chk=" + hex);
  }

  function TrimLast(fs: seq<Field>): seq<Field>
    requires fs != []
  {
    fs[|fs| - 1 := fs[|fs| - 1].(value := TrimEnd(fs[|fs| - 1].value))]
  }

  lemma TrimEndNewline(s: Text)
    ensures TrimEnd(s + "\n") == TrimEnd(s)
  {
    assert (s + "\n")[..|s|] == s;
  }

  lemma BodyEnds(prefix: Text, fs: seq<Field>)
    requires fs != []
    ensures
      var init, last := fs[..|fs| - 1], fs[|fs| - 1];
      Body(prefix, fs) == Body(prefix, init) + "|" + last.key + ['='] + last.value
  {
  }

  lemma TrimEndOfBody(prefix: Text, fs: seq<Field>)
    requires fs != []
    ensures TrimEnd(Body(prefix, fs) + "\n") == Body(prefix, TrimLast(fs))
  {
    var a := Body(prefix, fs[..|fs| - 1]) + "|" + fs[|fs| - 1].key;
    var v := fs[|fs| - 1].value;
    BodyEnds(prefix, fs);
    BodyEnds(prefix, TrimLast(fs));
    assert TrimLast(fs)[..|fs| - 1] == fs[..|fs| - 1];
    TrimEndNewline(Body(prefix, fs));
    TrimEndStops(a, '=', v);
  }

  lemma CleanParts(fs: seq<Field>)
    requires AreClean(fs)
    ensures forall i :: 0 <= i < |fs| ==> Lacks(PartOf(fs[i]), '|')
  {
    forall i | 0 <= i < |fs| ensures Lacks(PartOf(fs[i]), '|') {
      assert IsClean(fs[i]);
    }
  }

  lemma TrimStartLacks(s: Text)
    requires Lacks(s, '|')
    ensures Lacks(TrimStart(s), '|')
  {
    TrimStartExact(s);
  }

  lemma PlainFrameSplits(prefix: Text, fs: seq<Field>)
    requires Lacks(prefix, '|') && fs != []
    requires forall i :: 0 <= i < |fs| ==> Lacks(PartOf(TrimLast(fs)[i]), '|')
    ensures Split(Trim(Frame(prefix, fs, false))) == Parts(TrimStart(prefix), TrimLast(fs))
  {
    var p := TrimStart(prefix);
    TrimStartOfBody(prefix, fs, "\n");
    TrimStartLacks(prefix);
    TrimEndOfBody(p, fs);
    BodySplits(p, TrimLast(fs));
  }

  lemma TrimOfChecked(text: Text, hex: Text)
    requires IsHexText(hex)
    ensures Trim(text + ChecksumTail(hex)) == TrimStart(text) + "|" + ("chk=" + hex)
  {
    TrimStartAtBar(text, ChecksumTail(hex));
    TrimEndOfChecksum(TrimStart(text), hex);
  }

  /** Whatever precedes the checksum tail, only white space at its start is lost, and the tail is a part of its own. */
  lemma ChecksumTailSplits(text: Text, hex: Text)
    requires IsHexText(hex)
    ensures Split(Trim(text + ChecksumTail(hex))) == Split(TrimStart(text)) + ["chk=" + hex]
  {
    var part := "chk=" + hex;
    TrimOfChecked(text, hex);
    SplitAtBar(TrimStart(text), part);
    SplitWhole(part);
  }

  lemma CheckedFrameSplits(prefix: Text, fs: seq<Field>)
    requires Lacks(prefix, '|') && AreClean(fs) && fs != []
    ensures
      var body, p := Body(prefix, fs), TrimStart(prefix);
      && Split(Trim(Frame(prefix, fs, true))) == Parts(p, fs) + ["chk=" + ChecksumHex(body)]
      && Join(Parts(p, fs)) == Body(p, fs)
  {
    var body, p := Body(prefix, fs), TrimStart(prefix);
    ChecksumHexIsText(body);
    ChecksumTailSplits(body, ChecksumHex(body));
    TrimStartOfBody(prefix, fs, []);
    assert body + [] == body && Body(p, fs) + [] == Body(p, fs);
    CleanParts(fs);
    TrimStartLacks(prefix);
    BodySplits(p, fs);
    JoinSplit(Body(p, fs));
  }

  lemma TrimLastIsClean(fs: seq<Field>)
    requires fs != [] && AreClean(fs)
    ensures AreClean(TrimLast(fs))
  {
    assert IsClean(fs[|fs| - 1]);
    TrimEndExact(fs[|fs| - 1].value);
  }

  // ---------- what the field loop reads ----------

  function MapOf(fs: seq<Field>): map<Text, Text> {
    if fs == [] then map[] else MapOf(fs[..|fs| - 1])[fs[|fs| - 1].key := fs[|fs| - 1].value]
  }

  lemma {:induction false} ScanIgnoresLater(a: seq<Text>, b: seq<Text>, n: nat)
    requires 1 <= n <= |a|
    ensures ScanParts(a + b, n) == ScanParts(a, n)
  {
    if n > 1 { ScanIgnoresLater(a, b, n - 1); }
  }

  lemma {:induction false} PartsLength(prefix: Text, fs: seq<Field>)
    ensures |Parts(prefix, fs)| == |fs| + 1 && Parts(prefix, fs)[0] == prefix
  {
    if fs != [] { PartsLength(prefix, fs[..|fs| - 1]); }
  }

  lemma {:induction false} ScanOfFields(prefix: Text, fs: seq<Field>)
    requires AreClean(fs)
    ensures |Parts(prefix, fs)| == |fs| + 1
    ensures ScanParts(Parts(prefix, fs), |fs| + 1) == Some(Scan(MapOf(fs), None))
  {
    PartsLength(prefix, fs);
    if fs != [] {
      var init, last := fs[..|fs| - 1], fs[|fs| - 1];
      ScanOfFields(prefix, init);
      ScanIgnoresLater(Parts(prefix, init), [PartOf(last)], |fs|);
      assert IsClean(last);
      SplitOnceKeyValue(last.key, last.value);
    }
  }

  /** The scan of a frame that ends in a `chk` field, whatever comes before it. */
  lemma ScanOfChecksum(parts: seq<Text>, hex: Text)
    requires |parts| >= 1
    ensures
      var all := parts + ["chk=" + hex];
      ScanParts(all, |all|) == match ScanParts(parts, |parts|)
                               case None => None
                               case Some(scan) => Some(scan.(chk := Some((hex, |parts|))))
  {
    ScanIgnoresLater(parts, ["chk=" + hex], |parts|);
    SplitOnceKeyValue("chk", hex);
    assert "chk" + "=" + hex == "chk=" + hex;
  }

  lemma ScanOfPlain(prefix: Text, fs: seq<Field>)
    requires Lacks(prefix, '|') && AreClean(fs) && fs != []
    ensures Split(Trim(Frame(prefix, fs, false)))[0] == TrimStart(prefix)
    ensures ScanOf(Frame(prefix, fs, false)) == Some(Scan(MapOf(TrimLast(fs)), None))
  {
    var p := TrimStart(prefix);
    TrimLastIsClean(fs);
    CleanParts(TrimLast(fs));
    PlainFrameSplits(prefix, fs);
    PartsLength(p, TrimLast(fs));
    ScanOfFields(p, TrimLast(fs));
  }

  /** The line splits into parts that start with `first`; the k before the last checksum field join to `text`. */
  predicate ReadsAs(line: Text, first: Text, fields: map<Text, Text>, hex: Text, text: Text, k: nat) {
    var parts := Split(Trim(line));
    && 1 <= k < |parts| && parts[0] == first && Join(parts[..k]) == text
    && ScanOf(line) == Some(Scan(fields, Some((hex, k))))
  }

  lemma ScanOfChecked(prefix: Text, fs: seq<Field>)
    requires Lacks(prefix, '|') && AreClean(fs) && fs != []
    ensures
      var p := TrimStart(prefix);
      ReadsAs(Frame(prefix, fs, true), p, MapOf(fs), ChecksumHex(Body(prefix, fs)), Body(p, fs), |fs| + 1)
  {
    var p := TrimStart(prefix);
    CheckedFrameSplits(prefix, fs);
    PartsLength(p, fs);
    ScanOfFields(p, fs);
    ScanOfChecksum(Parts(p, fs), ChecksumHex(Body(prefix, fs)));
  }

  lemma OwnChecksumIsVerified(parts: seq<Text>, fields: map<Text, Text>, body: Text, k: nat)
    requires 1 <= k < |parts| && Join(parts[..k]) == body
    ensures
      var scan := Some(Scan(fields, Some((ChecksumHex(body), k))));
      PointsInto(scan, parts) && Checked(parts, scan, parts[0], true) == Ok(fields)
  {
    SameIgnoringCase(ChecksumHex(body));
  }

  lemma LineIsVerified(line: Text, prefix: Text, fields: map<Text, Text>, body: Text, k: nat)
    requires ReadsAs(line, prefix, fields, ChecksumHex(body), body, k)
    ensures FieldsOf(line, prefix, true) == Ok(fields)
  {
    OwnChecksumIsVerified(Split(Trim(line)), fields, body, k);
  }

  lemma LineIsAccepted(line: Text, prefix: Text, fields: map<Text, Text>)
    requires Split(Trim(line))[0] == prefix && ScanOf(line) == Some(Scan(fields, None))
    ensures FieldsOf(line, prefix, false) == Ok(fields)
  {
  }

  lemma CheckedFrameParses(prefix: Text, fs: seq<Field>)
    requires Lacks(prefix, '|') && LeadingSpace(prefix) == 0 && AreClean(fs) && fs != []
    ensures FieldsOf(Frame(prefix, fs, true), prefix, true) == Ok(MapOf(fs))
  {
    ScanOfChecked(prefix, fs);
    LineIsVerified(Frame(prefix, fs, true), prefix, MapOf(fs), Body(prefix, fs), |fs| + 1);
  }

  lemma PlainFrameParses(prefix: Text, fs: seq<Field>)
    requires Lacks(prefix, '|') && LeadingSpace(prefix) == 0 && AreClean(fs) && fs != []
    ensures FieldsOf(Frame(prefix, fs, false), prefix, false) == Ok(MapOf(TrimLast(fs)))
  {
    ScanOfPlain(prefix, fs);
    LineIsAccepted(Frame(prefix, fs, false), prefix, MapOf(TrimLast(fs)));
  }

  /** A parser that expects the prefix a frame was built with reads back the frame's fields. */
  lemma FrameParses(prefix: Text, fs: seq<Field>, checksum: bool)
    requires Lacks(prefix, '|') && LeadingSpace(prefix) == 0 && AreClean(fs) && fs != []
    ensures FieldsOf(Frame(prefix, fs, checksum), prefix, checksum) == Ok(MapOf(if checksum then fs else TrimLast(fs)))
  {
    if checksum { CheckedFrameParses(prefix, fs); } else { PlainFrameParses(prefix, fs); }
  }

  lemma {:induction false} MapOfKeys(fs: seq<Field>, key: Text)
    ensures key in MapOf(fs) <==> exists i :: 0 <= i < |fs| && fs[i].key == key
  {
    if fs != [] { MapOfKeys(fs[..|fs| - 1], key); }
  }

  lemma {:induction false} MapOfValue(fs: seq<Field>, i: nat)
    requires i < |fs| && forall j :: i < j < |fs| ==> fs[j].key != fs[i].key
    ensures fs[i].key in MapOf(fs) && MapOf(fs)[fs[i].key] == fs[i].value
  {
    if i < |fs| - 1 {
      assert fs[..|fs| - 1][i] == fs[i];
      MapOfValue(fs[..|fs| - 1], i);
    }
  }
}
