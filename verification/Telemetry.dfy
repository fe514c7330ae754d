/** iotHub_mbtcp/src/iothub_client_NB301_mqtt.c: the telemetry text and what can be read back from it. */
module Telemetry {
  import opened Words
  import opened Decimal
  import JsonTree
  import opened CStrings

  datatype Readings = Readings(oilPressure: uint16, oilTemperature: uint16, outputFreq: uint16, outputVoltage: uint16)

  const TEXT_SIZE: nat := 1024
  const PRESSURE_LABEL := "{\"deviceId\":\"device2\",\"oilPressure\":"
  const TEMPERATURE_LABEL := ",\"oilTemperature\":"
  const FREQ_LABEL := ",\"outputfreq\":"
  const VOLTAGE_LABEL := ",\"outputvoltage\":"

  function TextOf(r: Readings): string {
    PRESSURE_LABEL + Format(r.oilPressure) + (TEMPERATURE_LABEL + Format(r.oilTemperature)
      + (FREQ_LABEL + Format(r.outputFreq) + (VOLTAGE_LABEL + Format(r.outputVoltage) + "}")))
  }

  // ----- Reading the text back -----

  datatype Value = Text(text: string) | Number(n: nat)
  datatype Field = Field(name: string, value: Value)

  const QUOTE: char := '"'

  /** A quoted text without escapes, and what follows it. */
  function ReadQuoted(s: string): (r: Option<(string, string)>)
    ensures r.Some? ==> |r.value.1| < |s|
  {
    if s == [] || s[0] != QUOTE then None
    else
      var end := JsonTree.IndexOf(s[1..], QUOTE);
      if end == |s[1..]| || '\\' in s[1..][..end] then None else Some((s[1..][..end], s[1..][end + 1..]))
  }

  /** A quoted text or a number, and what follows it. */
  function ReadValue(s: string): (r: Option<(Value, string)>)
    ensures r.Some? ==> |r.value.1| < |s|
  {
    if DigitRun(s) > 0 then Some((Number(Decimal.Value(s[..DigitRun(s)])), s[DigitRun(s)..]))
    else
      match ReadQuoted(s)
      case Some((text, rest)) => Some((Text(text), rest))
      case None => None
  }

  /** Names and values up to the closing brace, which ends the text. */
  function ReadFields(s: string): Option<seq<Field>>
    decreases |s|
  {
    match ReadQuoted(s)
    case None => None
    case Some((name, afterName)) =>
      if afterName == [] || afterName[0] != ':' then None
      else
        match ReadValue(afterName[1..])
        case None => None
        case Some((value, rest)) =>
          if rest == "}" then Some([Field(name, value)])
          else if rest == [] || rest[0] != ',' then None
          else
            match ReadFields(rest[1..])
            case None => None
            case Some(fields) => Some([Field(name, value)] + fields)
  }

  /** A JSON object of texts without escapes and natural numbers. */
  function ReadObject(s: string): Option<seq<Field>> {
    if s == [] || s[0] != '{' then None else ReadFields(s[1..])
  }

  predicate Plain(s: string) {
    QUOTE !in s && '\\' !in s
  }

  lemma QuotedReads(text: string, rest: string)
    requires Plain(text)
    ensures ReadQuoted([QUOTE] + text + [QUOTE] + rest) == Some((text, rest))
  {
    var s := [QUOTE] + text + [QUOTE] + rest;
    assert s[1..] == text + [QUOTE] + rest;
    var t := s[1..];
    assert t[|text|] == QUOTE && forall i :: 0 <= i < |text| ==> t[i] == text[i];
    assert JsonTree.IndexOf(t, QUOTE) == |text|;
    assert t[..|text|] == text && t[|text| + 1..] == rest;
  }

  lemma NumberReads(n: nat, rest: string)
    requires rest != [] && !IsDigit(rest[0])
    ensures ReadValue(Format(n) + rest) == Some((Number(n), rest))
  {
    DigitRunDelimited(Format(n), rest);
    assert (Format(n) + rest)[..|Format(n)|] == Format(n) && (Format(n) + rest)[|Format(n)|..] == rest;
    FormatRoundTrip(n);
  }

  /** A name and the colon after it. */
  function Head(name: string): string {
    [QUOTE] + name + [QUOTE] + ":"
  }

  function Quoted(text: string): string {
    [QUOTE] + text + [QUOTE]
  }

  lemma HeadReads(name: string, rest: string)
    requires Plain(name)
    ensures ReadQuoted(Head(name) + rest) == Some((name, ":" + rest)) && (":" + rest)[1..] == rest
  {
    assert Head(name) + rest == [QUOTE] + name + [QUOTE] + (":" + rest);
    QuotedReads(name, ":" + rest);
  }

  /** The fields after a comma, behind the one just read. */
  function Then(f: Field, rest: string): Option<seq<Field>>
    requires rest != []
  {
    if rest == "}" then Some([f])
    else if rest[0] != ',' then None
    else
      match ReadFields(rest[1..])
      case Some(fields) => Some([f] + fields)
      case None => None
  }

  lemma NumberField(name: string, n: nat, rest: string)
    requires Plain(name) && rest != [] && !IsDigit(rest[0])
    ensures ReadFields(Head(name) + Format(n) + rest) == Then(Field(name, Number(n)), rest)
  {
    hide Format, ReadQuoted, Head;
    assert Head(name) + Format(n) + rest == Head(name) + (Format(n) + rest);
    HeadReads(name, Format(n) + rest);
    NumberReads(n, rest);
  }

  lemma TextField(name: string, text: string, rest: string)
    requires Plain(name) && Plain(text) && rest != []
    ensures ReadFields(Head(name) + Quoted(text) + rest) == Then(Field(name, Text(text)), rest)
  {
    hide Head, ReadQuoted;
    assert Head(name) + Quoted(text) + rest == Head(name) + (Quoted(text) + rest);
    HeadReads(name, Quoted(text) + rest);
    TextReads(text, rest);
  }

  lemma TextReads(text: string, rest: string)
    requires Plain(text)
    ensures ReadValue(Quoted(text) + rest) == Some((Text(text), rest))
  {
    hide ReadQuoted;
    QuotedReads(text, rest);
    assert (Quoted(text) + rest)[0] == QUOTE;
    assert DigitRun(Quoted(text) + rest) == 0;
  }

  /** A device and four numbers under any plain names. */
  lemma ObjectReads(device: string, name: string, names: seq<string>, values: seq<nat>)
    requires Plain(device) && Plain(name) && |names| == |values| == 4 && forall i :: 0 <= i < 4 ==> Plain(names[i])
    ensures var fourth := "," + (Head(names[3]) + Format(values[3]) + "}");
            var third := "," + (Head(names[2]) + Format(values[2]) + fourth);
            var second := "," + (Head(names[1]) + Format(values[1]) + third);
            var first := "," + (Head(names[0]) + Format(values[0]) + second);
            ReadObject("{" + (Head(name) + Quoted(device) + first))
            == Some([Field(name, Text(device)), Field(names[0], Number(values[0])), Field(names[1], Number(values[1])),
                     Field(names[2], Number(values[2])), Field(names[3], Number(values[3]))])
  {
    hide Head, Quoted, Format, ReadFields;
    var fourth := "," + (Head(names[3]) + Format(values[3]) + "}");
    var third := "," + (Head(names[2]) + Format(values[2]) + fourth);
    var second := "," + (Head(names[1]) + Format(values[1]) + third);
    var first := "," + (Head(names[0]) + Format(values[0]) + second);
    NumberField(names[3], values[3], "}");
    NumberField(names[2], values[2], fourth);
    NumberField(names[1], values[1], third);
    NumberField(names[0], values[0], second);
    TextField(name, device, first);
    ThenComma(Head(names[3]) + Format(values[3]) + "}");
    ThenComma(Head(names[2]) + Format(values[2]) + fourth);
    ThenComma(Head(names[1]) + Format(values[1]) + third);
    ThenComma(Head(names[0]) + Format(values[0]) + second);
    var all := "{" + (Head(name) + Quoted(device) + first);
    assert all[0] == '{' && all[1..] == Head(name) + Quoted(device) + first;
    var a, b, c, d := Field(names[0], Number(values[0])), Field(names[1], Number(values[1])),
                      Field(names[2], Number(values[2])), Field(names[3], Number(values[3]));
    assert [c] + [d] == [c, d] && [b] + [c, d] == [b, c, d] && [a] + [b, c, d] == [a, b, c, d];
    assert [Field(name, Text(device))] + [a, b, c, d] == [Field(name, Text(device)), a, b, c, d];
  }

  lemma ThenComma(fields: string)
    ensures var rest := "," + fields; rest != "}" && rest[0] == ',' && rest[1..] == fields
  {
    assert ("," + fields)[0] == ',';
  }

  lemma DeviceLabel()
    ensures PRESSURE_LABEL == "{" + (Head("deviceId") + Quoted("device2")) + "," + Head("oilPressure")
  {
  }

  lemma LabelParts()
    ensures TEMPERATURE_LABEL == "," + Head("oilTemperature")
    ensures FREQ_LABEL == "," + Head("outputfreq")
    ensures VOLTAGE_LABEL == "," + Head("outputvoltage")
  {
  }

  lemma Regroup<T>(a: seq<T>, b: seq<T>, c: seq<T>, d: seq<T>, e: seq<T>, f: seq<T>)
    ensures (a + b + c + d) + e + f == a + (b + (c + (d + e + f)))
    ensures (c + d) + e + f == c + (d + e + f)
  {
  }

  /** The text is a JSON object that gives the device and, under their names, the four values it was made from. */
  lemma TextDecodes(r: Readings)
    ensures ReadObject(TextOf(r))
            == Some([Field("deviceId", Text("device2")), Field("oilPressure", Number(r.oilPressure)),
                     Field("oilTemperature", Number(r.oilTemperature)), Field("outputfreq", Number(r.outputFreq)),
                     Field("outputvoltage", Number(r.outputVoltage))])
  {
    hide Head, Quoted, Format, ReadObject, Plain;
    var names := ["oilPressure", "oilTemperature", "outputfreq", "outputvoltage"];
    var values := [r.oilPressure, r.oilTemperature, r.outputFreq, r.outputVoltage];
    NamesPlain();
    DeviceLabel();
    LabelParts();
    var end := "}";
    var fourth := "," + (Head(names[3]) + Format(values[3]) + end);
    var third := "," + (Head(names[2]) + Format(values[2]) + fourth);
    var second := "," + (Head(names[1]) + Format(values[1]) + third);
    var d := Head("deviceId") + Quoted("device2");
    Regroup("{", d, ",", Head(names[0]), Format(values[0]), second);
    Regroup("{", d, ",", Head(names[1]), Format(values[1]), third);
    Regroup("{", d, ",", Head(names[2]), Format(values[2]), fourth);
    Regroup("{", d, ",", Head(names[3]), Format(values[3]), end);
    ObjectReads("device2", "deviceId", names, values);
  }

  lemma NamesPlain()
    ensures Plain("deviceId") && Plain("device2") && Plain("oilPressure") && Plain("oilTemperature")
    ensures Plain("outputfreq") && Plain("outputvoltage")
  {
  }

  /** Different readings never share a text. */
  lemma TextInjective(r: Readings, s: Readings)
    ensures TextOf(r) == TextOf(s) <==> r == s
  {
    hide TextOf, ReadObject;
    TextDecodes(r);
    TextDecodes(s);
    if TextOf(r) == TextOf(s) {
      var f, g := ReadObject(TextOf(r)).value, ReadObject(TextOf(s)).value;
      assert f[1] == g[1] && f[2] == g[2] && f[3] == g[3] && f[4] == g[4];
    }
  }

  lemma FiveDigits(n: uint16)
    ensures |Format(n)| <= 5
  {
    assert Pow10(2) == 100 && Pow10(5) == 100_000;
    FormatLength(n, 5);
  }

  /** The text and its terminator always fit the buffer, and the text has no NUL of its own. */
  lemma TextFits(r: Readings)
    ensures |TextOf(r)| + 1 <= 1024 == TEXT_SIZE && NUL !in TextOf(r)
  {
    hide Format, AllDigits;
    var p, t, f, v := Format(r.oilPressure), Format(r.oilTemperature), Format(r.outputFreq), Format(r.outputVoltage);
    FiveDigits(r.oilPressure);
    FiveDigits(r.oilTemperature);
    FiveDigits(r.outputFreq);
    FiveDigits(r.outputVoltage);
    NoNulInDigits(p);
    NoNulInDigits(t);
    NoNulInDigits(f);
    NoNulInDigits(v);
    var voltage := VOLTAGE_LABEL + v + "}";
    assert NUL !in voltage;
    var freq := FREQ_LABEL + f + voltage;
    assert NUL !in freq;
    var temperature := TEMPERATURE_LABEL + t + freq;
    assert NUL !in temperature;
  }

  lemma NoNulInDigits(s: string)
    requires AllDigits(s)
    ensures NUL !in s
  {
  }

  /** sprintf_s into msgText: the buffer ends up holding the whole text. */
  method PrintText(msgText: array<char>, r: Readings)
    requires msgText.Length == TEXT_SIZE
    modifies msgText
    ensures Holds(msgText[..], TextOf(r))
  {
    hide TextOf;
    TextFits(r);
    SnPrintf(msgText, 0, TEXT_SIZE, TextOf(r));
  }
}
