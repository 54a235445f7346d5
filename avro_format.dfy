/** AvroFormatFactory: the format factory the table factory discovers for Avro sessions. It
    reads the catalog table's options, normalises the selected-fields string, splits it and
    the Avro field list on commas, and builds the Avro decoding format from them. */
module AvroFormat {
  import opened JavaLib
  import TableFactory

  const Identifier := "avro"

  /** The prefix that may precede the selected fields and is removed together with a
      trailing comma. */
  const SelectedFieldsPrefix := "selectedFields="

  /** factoryIdentifier */
  function FactoryIdentifier(): string
  {
    Identifier
  }

  /** requiredOptions and optionalOptions: the format declares no options. */
  function RequiredOptions(): set<string>
  {
    {}
  }

  function OptionalOptions(): set<string>
  {
    {}
  }

  /** createEncodingFormat: the format only decodes; the result is always null. */
  function CreateEncodingFormat(): Option<()>
  {
    None
  }

  /** The format's constants: it is found under "avro", a name other than the table
      factory's, declares no options and offers no encoding. */
  lemma FactoryConstants()
    ensures FactoryIdentifier() == "avro" && FactoryIdentifier() != TableFactory.FactoryIdentifier()
    ensures RequiredOptions() == {} && OptionalOptions() == {}
    ensures CreateEncodingFormat().None?
  {
    assert FactoryIdentifier()[0] != TableFactory.FactoryIdentifier()[0];
  }

  /** The selected-fields string after normalisation: with a trailing comma, the comma is
      dropped and every "selectedFields=" removed; otherwise it is kept as it is. */
  function NormalisedSelectedFields(s: string): (r: string)
    ensures !EndsWith(s, ",") ==> r == s
    ensures EndsWith(s, ",") ==> |r| < |s|
  {
    if EndsWith(s, ",") then Replace(s[..|s| - 1], SelectedFieldsPrefix, "") else s
  }

  /** The list of selected fields the decoding format receives. */
  function SelectedFieldList(s: string): (r: seq<string>)
    ensures forall k :: 0 <= k < |r| ==> ',' !in r[k]
  {
    JavaSplit(NormalisedSelectedFields(s), ',')
  }

  /** A single name, with no comma anywhere, is selected as itself. */
  lemma SingleSelectedField(s: string)
    requires !EndsWith(s, ",") && ',' !in s
    ensures SelectedFieldList(s) == [s]
  {
  }

  /** The Avro decoding format: selected fields, the Avro schema's fields, and the Avro
      schema text (null when the option is absent). */
  datatype AvroDecodingFormat = AvroDecodingFormat(
    selectedFieldList: seq<string>,
    avroFieldList: seq<string>,
    avroSchema: Option<string>)

  /** Field names that survive being written into an option: no comma, no '='. */
  predicate PlainNames(names: seq<string>) {
    |names| >= 1 && (|names| == 1 || names[|names| - 1] != "") &&
    forall k :: 0 <= k < |names| ==> ',' !in names[k] && '=' !in names[k]
  }

  /** A text free of '=' holds no "selectedFields=". */
  lemma NoPrefixWithoutEquals(s: string)
    requires '=' !in s
    ensures Replace(s, SelectedFieldsPrefix, "") == s
  {
    assert SelectedFieldsPrefix[14] == '=';
    NoOccurrenceWithoutChar(s, SelectedFieldsPrefix, 14);
  }

  /** A list of at least one name, each followed by a comma, is the names joined by commas
      and one more comma. */
  lemma TerminatedIsJoined(names: seq<string>)
    requires names != []
    ensures TableFactory.CommaTerminated(names) == Join(names, ",") + ","
  {
    TableFactory.StripCommaTerminated(names);
  }

  /** A text ending in a comma is normalised by dropping the comma and every prefix: the
      comma case of `NormalisedSelectedFields`, stated on `text + ","` so that the round-trip
      lemmas need not take the string apart themselves. */
  lemma NormaliseComma(text: string)
    ensures NormalisedSelectedFields(text + ",") == Replace(text, SelectedFieldsPrefix, "")
  {
    var s := text + ",";
    assert s[|s| - 1..] == ",";
    assert s[..|s| - 1] == text;
  }

  /** Normalising a text free of '=' that ends in a comma, with or without the prefix in
      front, leaves the text before the comma. */
  lemma NormaliseTerminated(prefix: string, body: string)
    requires prefix == "" || prefix == SelectedFieldsPrefix
    requires '=' !in body
    ensures NormalisedSelectedFields(prefix + (body + ",")) == body
  {
    Regroup(prefix, body, ",");
    NormaliseComma(prefix + body);
    NoPrefixWithoutEquals(body);
    if prefix == SelectedFieldsPrefix {
      ReplaceLeading(SelectedFieldsPrefix, body, "");
      assert "" + body == body;
    } else {
      assert prefix + body == body;
    }
  }

  /** Plain names joined by commas are selected exactly, with or without a trailing comma. */
  lemma SelectedFieldsRoundTrip(names: seq<string>)
    requires PlainNames(names)
    ensures SelectedFieldList(TableFactory.CommaTerminated(names)) == names
    ensures SelectedFieldList(Join(names, ",")) == names
  {
    var joined := Join(names, ",");
    CharNotInJoin(names, ',', '=');
    JavaSplitJoin(names, ',');
    JoinFirstAndLast(names, ",");
    TerminatedIsJoined(names);
    NormaliseTerminated("", joined);
    assert "" + (joined + ",") == joined + ",";
    assert !EndsWith(joined, ",");
  }

  /** The "selectedFields=" prefix the option may carry is removed when the list ends with a
      comma. */
  lemma PrefixedSelectedFields(names: seq<string>)
    requires PlainNames(names)
    ensures SelectedFieldList(SelectedFieldsPrefix + TableFactory.CommaTerminated(names)) == names
  {
    var joined := Join(names, ",");
    CharNotInJoin(names, ',', '=');
    TerminatedIsJoined(names);
    NormaliseTerminated(SelectedFieldsPrefix, joined);
    JavaSplitJoin(names, ',');
  }

  /** The Avro field list the table factory hands over, the session's field names joined by
      commas, is split back into exactly those names. */
  lemma AvroFieldsRoundTrip(names: seq<string>)
    requires PlainNames(names)
    ensures TableFactory.StripLastChar(TableFactory.CommaTerminated(names)) == Ok(Join(names, ","))
    ensures JavaSplit(Join(names, ","), ',') == names
  {
    TableFactory.StripCommaTerminated(names);
    JavaSplitJoin(names, ',');
  }

  class AvroFormatFactory {
    /** The selected-fields string of the last decoding format created (null before). */
    var selectedFields: Option<string>

    constructor ()
      ensures selectedFields == None
    {
      selectedFields := None;
    }

    /** createDecodingFormat: the selected fields are read and normalised first, so a
        missing "selectedFields" option fails before anything else; a missing "avroFields"
        option fails next; the Avro schema may be absent. */
    method CreateDecodingFormat(options: map<string, string>) returns (r: Result<AvroDecodingFormat>)
      modifies this
      ensures "selectedFields" !in options ==> r == Err(NullPointer) && selectedFields == None
      ensures "selectedFields" in options ==>
        selectedFields == Some(NormalisedSelectedFields(options["selectedFields"]))
      ensures "selectedFields" in options && "avroFields" !in options ==> r == Err(NullPointer)
      ensures "selectedFields" in options && "avroFields" in options ==>
        r == Ok(AvroDecodingFormat(
          SelectedFieldList(options["selectedFields"]),
          JavaSplit(options["avroFields"], ','),
          if "avroSchema" in options then Some(options["avroSchema"]) else None))
    {
      selectedFields := if "selectedFields" in options then Some(options["selectedFields"]) else None;
      if selectedFields.None? {
        return Err(NullPointer);
      }
      if EndsWith(selectedFields.value, ",") {
        var s := selectedFields.value;
        selectedFields := Some(Replace(s[..|s| - 1], SelectedFieldsPrefix, ""));
      }
      var selectedFieldList: seq<string> := [];
      if "avroFields" !in options {
        return Err(NullPointer);
      }
      var avroFieldList := JavaSplit(options["avroFields"], ',');
      var avroSchema := if "avroSchema" in options then Some(options["avroSchema"]) else None;
      if selectedFields.Some? {
        selectedFieldList := JavaSplit(selectedFields.value, ',');
      }
      r := Ok(AvroDecodingFormat(selectedFieldList, avroFieldList, avroSchema));
    }
  }

  /** The table factory's Avro options, read back by the format: with plain field names on
      both sides, the decoding format gets exactly the selected names and the session's
      Avro field names, and the schema. */
  method TableOptionsRoundTrip(selected: seq<string>, avroNames: seq<string>, schema: string)
    returns (r: Result<AvroDecodingFormat>)
    requires PlainNames(selected) && PlainNames(avroNames)
    ensures r == Ok(AvroDecodingFormat(selected, avroNames, Some(schema)))
  {
    var factory := new AvroFormatFactory();
    SelectedFieldsRoundTrip(selected);
    AvroFieldsRoundTrip(avroNames);
    var options := map["selectedFields" := TableFactory.CommaTerminated(selected),
                       "avroFields" := Join(avroNames, ","),
                       "avroSchema" := schema];
    assert SelectedFieldList(options["selectedFields"]) == selected;
    assert JavaSplit(options["avroFields"], ',') == avroNames;
    assert "avroSchema" in options && options["avroSchema"] == schema;
    r := factory.CreateDecodingFormat(options);
  }
}
