/** ArrowRowDataDeserializationSchema: turns a serialized Arrow record batch into Flink rows.
    Building the schema re-orders the table's row type into the order of the fields in the
    Arrow read session; deserializing decodes a batch into a column block, converts it into
    rows and emits them. The Arrow decoder and the row converter are inputs: each is a
    function that either yields its result or fails. */
module ArrowDeserialization {
  import opened JavaLib
  import opened FlinkRuntime
  import opened SourceFunction

  // ---------------------------------------------------------------------------
  // Row types and their re-ordering

  /** One field of a Flink row type: its name and its logical type. */
  datatype Field<T> = Field(name: string, logicalType: T)

  function Names<T>(row: seq<Field<T>>): (r: seq<string>)
    ensures |r| == |row|
    ensures forall i :: 0 <= i < |row| ==> r[i] == row[i].name
  {
    if row == [] then [] else [row[0].name] + Names(row[1..])
  }

  /** The position of the row field that lands at output position `i`: the same position
      when the selected and the Arrow names agree there, otherwise the first selected field
      carrying the Arrow name (-1 when there is none). */
  function SourceIndex(selected: seq<string>, arrow: seq<string>, i: nat): (r: int)
    requires i < |selected| && i < |arrow|
    ensures -1 <= r < |selected|
    ensures r == -1 <==> arrow[i] !in selected
    ensures 0 <= r ==> selected[r] == arrow[i]
    ensures selected[i] == arrow[i] ==> r == i
    ensures selected[i] != arrow[i] ==> r == -1 || forall j :: 0 <= j < r ==> selected[j] != arrow[i]
  {
    if selected[i] == arrow[i] then i
    else
      var r := IndexOf(selected, arrow[i]);
      assert forall j :: 0 <= j < r ==> selected[j] == selected[..r][j];
      r
  }

  /** Every position of the re-ordering can be filled: both name lists reach as far as the
      row type, and every source position is a field of the row type. */
  predicate Reorderable<T>(row: seq<Field<T>>, selected: seq<string>, arrow: seq<string>) {
    |row| <= |selected| && |row| <= |arrow| &&
    forall i :: 0 <= i < |row| ==> 0 <= SourceIndex(selected, arrow, i) < |row|
  }

  /** The re-ordered row type: output position `i` holds the row field whose selected name
      is the Arrow name at `i`. */
  function ReorderedRowType<T>(row: seq<Field<T>>, selected: seq<string>, arrow: seq<string>): (r: seq<Field<T>>)
    requires Reorderable(row, selected, arrow)
    ensures |r| == |row|
    ensures forall i :: 0 <= i < |r| && selected[i] == arrow[i] ==> r[i] == row[i]
  {
    seq(|row|, i requires 0 <= i < |row| => row[SourceIndex(selected, arrow, i)])
  }

  /** Each output position holds a field of the row type whose selected name is the Arrow
      name at that position. */
  lemma ReorderedTakesNamedField<T>(row: seq<Field<T>>, selected: seq<string>, arrow: seq<string>, i: nat)
    requires Reorderable(row, selected, arrow) && i < |row|
    ensures exists j :: 0 <= j < |row| && selected[j] == arrow[i] &&
                        ReorderedRowType(row, selected, arrow)[i] == row[j]
  {
    var j := SourceIndex(selected, arrow, i);
    assert ReorderedRowType(row, selected, arrow)[i] == row[j];
  }

  /** RowType.of(types, names): pairs the two lists up position by position. */
  function Zip<T>(names: seq<string>, types: seq<T>): (r: seq<Field<T>>)
    requires |names| == |types|
    ensures |r| == |names|
    ensures forall i :: 0 <= i < |r| ==> r[i].name == names[i] && r[i].logicalType == types[i]
  {
    if names == [] then [] else [Field(names[0], types[0])] + Zip(names[1..], types[1..])
  }

  /** getRowTypeForArrowSchema: one pass over the row's fields, appending a name and a type
      per position; an index outside one of the lists fails the whole call. */
  method RowTypeForArrowSchema<T>(rowType: seq<Field<T>>, selectedFieldList: seq<string>,
                                  arrowFieldList: seq<string>)
    returns (r: Result<seq<Field<T>>>)
    ensures r.Ok? <==> Reorderable(rowType, selectedFieldList, arrowFieldList)
    ensures r.Ok? ==> r.value == ReorderedRowType(rowType, selectedFieldList, arrowFieldList)
    ensures r.Err? ==> r.error == IndexOutOfBounds
  {
    var updatedRowFieldNames: seq<string> := [];
    var updatedRowFields: seq<T> := [];
    var i := 0;
    while i < |rowType|
      invariant 0 <= i <= |rowType|
      invariant |updatedRowFieldNames| == |updatedRowFields| == i
      invariant i > 0 ==> i <= |selectedFieldList| && i <= |arrowFieldList|
      invariant forall k :: 0 <= k < i ==> 0 <= SourceIndex(selectedFieldList, arrowFieldList, k) < |rowType|
      invariant forall k :: 0 <= k < i ==>
        var src := rowType[SourceIndex(selectedFieldList, arrowFieldList, k)];
        updatedRowFieldNames[k] == src.name && updatedRowFields[k] == src.logicalType
    {
      if i >= |selectedFieldList| || i >= |arrowFieldList| {
        return Err(IndexOutOfBounds);
      }
      var rowTypeFieldIndex := i;
      if selectedFieldList[i] != arrowFieldList[i] {
        rowTypeFieldIndex := IndexOf(selectedFieldList, arrowFieldList[i]);
      }
      assert rowTypeFieldIndex == SourceIndex(selectedFieldList, arrowFieldList, i);
      if rowTypeFieldIndex < 0 || rowTypeFieldIndex >= |rowType| {
        return Err(IndexOutOfBounds);
      }
      updatedRowFieldNames := updatedRowFieldNames + [rowType[rowTypeFieldIndex].name];
      updatedRowFields := updatedRowFields + [rowType[rowTypeFieldIndex].logicalType];
      i := i + 1;
    }
    r := Ok(Zip(updatedRowFieldNames, updatedRowFields));
  }

  // ---------------------------------------------------------------------------
  // The re-ordering is a permutation

  lemma NamesDistinct<T>(row: seq<Field<T>>)
    requires Distinct(Names(row))
    ensures Distinct(row)
  {
    forall i, j | 0 <= i < j < |row| ensures row[i] != row[j] {
      assert Names(row)[i] != Names(row)[j];
    }
  }

  /** When the row type's names are the selected fields and every Arrow field is one of
      them, the re-ordering succeeds and its names are the Arrow fields in their order. */
  lemma ReorderedNames<T>(row: seq<Field<T>>, selected: seq<string>, arrow: seq<string>)
    requires Names(row) == selected
    requires |arrow| == |selected| && forall i :: 0 <= i < |arrow| ==> arrow[i] in selected
    ensures Reorderable(row, selected, arrow)
    ensures Names(ReorderedRowType(row, selected, arrow)) == arrow
  {
    forall i | 0 <= i < |row| ensures 0 <= SourceIndex(selected, arrow, i) < |row| {
    }
    var out := ReorderedRowType(row, selected, arrow);
    forall i | 0 <= i < |out| ensures Names(out)[i] == arrow[i] {
      assert out[i] == row[SourceIndex(selected, arrow, i)];
    }
  }

  /** With duplicate-free selected fields, every field of the row type reappears in the
      re-ordering, at the position of its name among the Arrow fields. */
  lemma ReorderedKeepsField<T>(row: seq<Field<T>>, selected: seq<string>, arrow: seq<string>, j: nat)
    requires Names(row) == selected && Distinct(selected)
    requires |arrow| == |selected| && Reorderable(row, selected, arrow)
    requires j < |row| && selected[j] in arrow
    ensures row[j] in ReorderedRowType(row, selected, arrow)
  {
    var i := IndexOf(arrow, selected[j]);
    var src := SourceIndex(selected, arrow, i);
    assert src == j by {
      assert selected[src] == selected[j];
    }
    assert ReorderedRowType(row, selected, arrow)[i] == row[j];
  }

  /** Lists with the same elements counted with multiplicity have the same length, and
      every element of one is in the other. */
  lemma SameMultisetMembers(arrow: seq<string>, selected: seq<string>)
    requires multiset(arrow) == multiset(selected)
    ensures |arrow| == |selected|
    ensures forall i :: 0 <= i < |arrow| ==> arrow[i] in selected
    ensures forall j :: 0 <= j < |selected| ==> selected[j] in arrow
  {
    assert |multiset(arrow)| == |multiset(selected)|;
    forall i | 0 <= i < |arrow| ensures arrow[i] in selected {
      assert arrow[i] in multiset(selected);
    }
    forall j | 0 <= j < |selected| ensures selected[j] in arrow {
      assert selected[j] in multiset(arrow);
    }
  }

  /** The re-ordering holds the same fields as the row type, when every selected name is
      also an Arrow name. */
  lemma ReorderedSameElements<T>(row: seq<Field<T>>, selected: seq<string>, arrow: seq<string>)
    requires Names(row) == selected && Distinct(selected)
    requires |arrow| == |selected| && Reorderable(row, selected, arrow)
    requires forall j :: 0 <= j < |selected| ==> selected[j] in arrow
    ensures forall f :: f in row <==> f in ReorderedRowType(row, selected, arrow)
  {
    var out := ReorderedRowType(row, selected, arrow);
    forall f | f in row ensures f in out {
      var j := IndexOf(row, f);
      ReorderedKeepsField(row, selected, arrow, j);
    }
    forall f | f in out ensures f in row {
      var i := IndexOf(out, f);
      assert out[i] == row[SourceIndex(selected, arrow, i)];
    }
  }

  /** When the row type's names are the selected fields and the Arrow fields are those same
      names without duplicates, in some order, the re-ordering always succeeds, its names are
      the Arrow fields in their order, and it holds exactly the row's fields. */
  lemma ReorderedIsPermutation<T>(row: seq<Field<T>>, selected: seq<string>, arrow: seq<string>)
    requires Names(row) == selected
    requires Distinct(arrow) && multiset(arrow) == multiset(selected)
    ensures Reorderable(row, selected, arrow)
    ensures Names(ReorderedRowType(row, selected, arrow)) == arrow
    ensures multiset(ReorderedRowType(row, selected, arrow)) == multiset(row)
  {
    SameMultisetMembers(arrow, selected);
    ReorderedNames(row, selected, arrow);
    var out := ReorderedRowType(row, selected, arrow);
    SameMultisetDistinct(arrow, selected);
    NamesDistinct(row);
    NamesDistinct(out);
    ReorderedSameElements(row, selected, arrow);
    DistinctSameElements(out, row);
  }

  // ---------------------------------------------------------------------------
  // The deserialization schema

  /** The schema's collaborators: the read-session field names, the nested Arrow decoder
      (bytes to a record batch) and the runtime converter, as the collector overload casts
      its result (a list of rows) and as the single-message overload casts it (one row). */
  datatype ArrowRowDataDeserializationSchema<!B, R> = ArrowRowDataDeserializationSchema(
    readSessionFieldNames: seq<string>,
    nestedSchema: Bytes -> Result<B>,
    convertBatch: B -> Result<seq<R>>,
    convertRow: B -> Result<R>)

  /** The constructor: re-orders the row type, keeps the re-ordered names as the read-session
      field names, and fails as the re-ordering does. */
  method NewArrowRowDataDeserializationSchema<T, B, R>(
    rowType: seq<Field<T>>, selectedFieldList: seq<string>, arrowFieldList: seq<string>,
    nestedSchema: Bytes -> Result<B>, convertBatch: B -> Result<seq<R>>, convertRow: B -> Result<R>)
    returns (r: Result<ArrowRowDataDeserializationSchema<B, R>>)
    ensures r.Ok? <==> Reorderable(rowType, selectedFieldList, arrowFieldList)
    ensures r.Err? ==> r.error == IndexOutOfBounds
    ensures r.Ok? ==> r.value == ArrowRowDataDeserializationSchema(
      Names(ReorderedRowType(rowType, selectedFieldList, arrowFieldList)),
      nestedSchema, convertBatch, convertRow)
  {
    var reordered := RowTypeForArrowSchema(rowType, selectedFieldList, arrowFieldList);
    if reordered.Err? {
      return Err(reordered.error);
    }
    r := Ok(ArrowRowDataDeserializationSchema(Names(reordered.value), nestedSchema, convertBatch, convertRow));
  }

  const EmptyMessage := "Deserializing message is empty"
  const ArrowFailure := "Error while deserializing Arrow type"

  /** What the collector overload hands to the collector and what it throws. A null message
      is rejected before anything is decoded; a failure to decode or to convert is wrapped;
      otherwise every converted row is emitted. */
  function CollectorOutcome<B, R>(schema: ArrowRowDataDeserializationSchema<B, R>, message: Option<Bytes>)
    : (o: Outcome<R>)
    ensures o.thrown.Some? ==> o.emitted == [] && o.thrown.value.FlinkBigQueryException?
    ensures message.None? ==> o.thrown == Some(FlinkBigQueryException(EmptyMessage))
    ensures message.Some? && o.thrown.Some? ==> o.thrown == Some(FlinkBigQueryException(ArrowFailure))
    ensures o.thrown.None? <==>
      message.Some? && schema.nestedSchema(message.value).Ok? &&
      schema.convertBatch(schema.nestedSchema(message.value).value).Ok?
    ensures o.thrown.None? ==>
      o.emitted == schema.convertBatch(schema.nestedSchema(message.value).value).value
  {
    match message
    case None => Outcome([], Some(FlinkBigQueryException(EmptyMessage)))
    case Some(bytes) =>
      match schema.nestedSchema(bytes)
      case Err(_) => Outcome([], Some(FlinkBigQueryException(ArrowFailure)))
      case Ok(batch) =>
        match schema.convertBatch(batch)
        case Err(_) => Outcome([], Some(FlinkBigQueryException(ArrowFailure)))
        case Ok(rows) => Outcome(rows, None)
  }

  /** A decoded Arrow column block; it holds off-heap buffers until it is closed. */
  class VectorSchemaRoot<B> {
    const batch: B
    var closed: bool

    constructor (batch: B)
      ensures this.batch == batch && !closed
    {
      this.batch := batch;
      closed := false;
    }

    method Close()
      modifies this
      ensures closed
    {
      closed := true;
    }
  }

  /** deserialize(message, out): decodes the block, converts it, emits the rows one by one,
      and closes the block on the way out whenever it was created, whether the conversion
      succeeded or not. The block is returned so that its state can be stated. */
  method Deserialize<B, R>(schema: ArrowRowDataDeserializationSchema<B, R>, responseByteMessage: Option<Bytes>,
                           out: ListCollector<R>)
    returns (thrown: Option<Exception>, root: Option<VectorSchemaRoot<B>>)
    modifies out
    ensures out.items == old(out.items) + CollectorOutcome(schema, responseByteMessage).emitted
    ensures thrown == CollectorOutcome(schema, responseByteMessage).thrown
    ensures root.Some? <==>
      responseByteMessage.Some? && schema.nestedSchema(responseByteMessage.value).Ok?
    ensures root.Some? ==>
      fresh(root.value) && root.value.closed &&
      root.value.batch == schema.nestedSchema(responseByteMessage.value).value
  {
    if responseByteMessage.None? {
      return Some(FlinkBigQueryException(EmptyMessage)), None;
    }
    root := None;
    var decoded := schema.nestedSchema(responseByteMessage.value);
    if decoded.Err? {
      thrown := Some(FlinkBigQueryException(ArrowFailure));
    } else {
      var block := new VectorSchemaRoot(decoded.value);
      root := Some(block);
      var rowdatalist := schema.convertBatch(block.batch);
      if rowdatalist.Err? {
        thrown := Some(FlinkBigQueryException(ArrowFailure));
      } else {
        var i := 0;
        while i < |rowdatalist.value|
          invariant 0 <= i <= |rowdatalist.value|
          invariant out.items == old(out.items) + rowdatalist.value[..i]
        {
          out.Collect(rowdatalist.value[i]);
          i := i + 1;
        }
        assert rowdatalist.value[..i] == rowdatalist.value;
        thrown := None;
      }
      block.Close();
    }
  }

  /** deserialize(message): a null message yields null; otherwise one decoded and converted
      row, any failure wrapped. */
  function DeserializeRow<B, R>(schema: ArrowRowDataDeserializationSchema<B, R>, message: Option<Bytes>)
    : (r: Result<Option<R>>)
    ensures message.None? <==> r == Ok(None)
    ensures r.Err? ==> r.error == FlinkBigQueryException(ArrowFailure)
    ensures r.Ok? && message.Some? ==>
      schema.nestedSchema(message.value).Ok? &&
      schema.convertRow(schema.nestedSchema(message.value).value) == Ok(r.value.value)
  {
    match message
    case None => Ok(None)
    case Some(bytes) =>
      match schema.nestedSchema(bytes)
      case Err(_) => Err(FlinkBigQueryException(ArrowFailure))
      case Ok(batch) =>
        match schema.convertRow(batch)
        case Err(_) => Err(FlinkBigQueryException(ArrowFailure))
        case Ok(row) => Ok(Some(row))
  }

  /** isEndOfStream: only the null element ends the stream. */
  function IsEndOfStream<R>(nextElement: Option<R>): (r: bool)
    ensures r <==> nextElement == None
  {
    nextElement.None?
  }

  /** A successfully deserialized message ends the stream exactly when it was null. */
  lemma EndOfStreamIffNullMessage<B, R>(schema: ArrowRowDataDeserializationSchema<B, R>, message: Option<Bytes>)
    requires DeserializeRow(schema, message).Ok?
    ensures IsEndOfStream(DeserializeRow(schema, message).value) <==> message.None?
  {
  }

  // ---------------------------------------------------------------------------
  // The schema inside run()

  /** The schema as run() uses it: run() always hands over a whole serialized response. */
  function AsDeserializer<B, R>(schema: ArrowRowDataDeserializationSchema<B, R>): Deserializer<R>
  {
    Deserializer(
      m => CollectorOutcome(schema, Some(m)),
      m => var r := DeserializeRow(schema, Some(m));
           if r.Ok? then Ok(r.value.value) else Err(r.error))
  }

  /** run() passes the schema's own exceptions through unchanged: they are
      FlinkBigQueryExceptions, not IOExceptions, so an Arrow response ends the run with
      exactly what the schema threw and emits exactly what it emitted. */
  lemma ArrowFailuresPassThroughRun<B, R>(schema: ArrowRowDataDeserializationSchema<B, R>,
                                          response: ReadRowsResponse)
    requires response.rows.ArrowRecordBatch?
    ensures ResponseOutcome(response, AsDeserializer(schema)) == CollectorOutcome(schema, Some(response.wire))
  {
    var c := CollectorOutcome(schema, Some(response.wire));
    assert AsDeserializer(schema).intoCollector(response.wire) == c;
  }
}
