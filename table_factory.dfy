/** BigQueryDynamicTableFactory: the Flink table factory of the connector. It declares its
    option keys, turns a validation failure into the list of options that are really missing
    for the chosen mode (a table or a query), lists the read streams of the read session,
    accumulates the session's field names into a comma-terminated string, and hands the
    table source the field list without its trailing comma. Creating the read session,
    credentials and schema parsing are inputs: the session arrives as a value or a failure. */
module TableFactory {
  import opened JavaLib

  // ---------------------------------------------------------------------------
  // Identifier and option keys

  /** The factory's configuration options; `Format` is Flink's own format option. */
  datatype ConfigOption =
    | TableOption | SelectedFieldsOption | QueryOption
    | MaterializationProjectOption | MaterializationDatasetOption
    | Format | ParentProject | CredentialsFile | GcpAccessToken | Credentials | Filter
    | DefaultParallelism | ProxyUri | ProxyUsername | ProxyPassword
    | BqEncodedCreateReadSessionRequest | BqBackgroundThreadsPerStream | Parallelism
    | MaxParallelism | ArrowCompressionCodec | PartitionField | PartitionType
    | PartitionExpirationMs | PartitionRequireFilter

  /** The key each option is configured under. */
  function Key(option: ConfigOption): string
  {
    match option
    case TableOption => Table
    case SelectedFieldsOption => SelectedFields
    case QueryOption => Query
    case MaterializationProjectOption => MaterializationProject
    case MaterializationDatasetOption => MaterializationDataset
    case Format => "format"
    case ParentProject => "parentProject"
    case CredentialsFile => "credentialsFile"
    case GcpAccessToken => "gcpAccessToken"
    case Credentials => "credentials"
    case Filter => "filter"
    case DefaultParallelism => "defaultParallelism"
    case ProxyUri => "proxyUri"
    case ProxyUsername => "proxyUsername"
    case ProxyPassword => "proxyPassword"
    case BqEncodedCreateReadSessionRequest => "bqEncodedCreateReadSessionRequest"
    case BqBackgroundThreadsPerStream => "bqBackgroundThreadsPerStream"
    case Parallelism => "parallelism"
    case MaxParallelism => "maxParallelism"
    case ArrowCompressionCodec => "arrowCompressionCodec"
    case PartitionField => "partitionField"
    case PartitionType => "partitionType"
    case PartitionExpirationMs => "partitionExpirationMs"
    case PartitionRequireFilter => "partitionRequireFilter"
  }

  const Table := "table"
  const SelectedFields := "selectedFields"
  const Query := "query"
  const MaterializationProject := "materializationProject"
  const MaterializationDataset := "materializationDataset"

  /** The five required options. */
  function RequiredKeys(): set<ConfigOption> {
    {TableOption, SelectedFieldsOption, QueryOption, MaterializationProjectOption,
     MaterializationDatasetOption}
  }

  /** The nineteen optional options, in the order they are added: access, filtering and
      proxy, read-session tuning, partitioning. */
  function OptionalKeys(): set<ConfigOption> {
    AccessKeys() + ReadKeys() + SessionKeys() + PartitionKeys()
  }

  function AccessKeys(): set<ConfigOption> {
    {Format, ParentProject, CredentialsFile, GcpAccessToken, Credentials}
  }

  function ReadKeys(): set<ConfigOption> {
    {Filter, DefaultParallelism, ProxyUri, ProxyUsername, ProxyPassword}
  }

  function SessionKeys(): set<ConfigOption> {
    {BqEncodedCreateReadSessionRequest, BqBackgroundThreadsPerStream, Parallelism,
     MaxParallelism, ArrowCompressionCodec}
  }

  function PartitionKeys(): set<ConfigOption> {
    {PartitionField, PartitionType, PartitionExpirationMs, PartitionRequireFilter}
  }

  /** The keys of a set of options. */
  function KeyNames(options: set<ConfigOption>): set<string>
  {
    set o | o in options :: Key(o)
  }

  /** factoryIdentifier */
  function FactoryIdentifier(): (r: string)
    ensures r == "bigquery"
  {
    "bigquery"
  }

  /** requiredOptions: a fresh set, one add per option; five distinct options. */
  method RequiredOptions() returns (options: set<ConfigOption>)
    ensures options == RequiredKeys()
    ensures |options| == 5
    ensures KeyNames(options) ==
      {"materializationDataset", "materializationProject", "query", "selectedFields", "table"}
  {
    options := {};
    options := options + {TableOption};
    options := options + {SelectedFieldsOption};
    options := options + {QueryOption};
    options := options + {MaterializationProjectOption};
    options := options + {MaterializationDatasetOption};
    RequiredOptionCount();
  }

  /** optionalOptions: a fresh set, one add per option. */
  method OptionalOptions() returns (options: set<ConfigOption>)
    ensures options == OptionalKeys()
  {
    options := {};
    options := options + {Format};
    assert options == {Format};
    options := options + {ParentProject};
    options := options + {CredentialsFile};
    options := options + {GcpAccessToken};
    options := options + {Credentials};
    AddedOneByOne({Format}, ParentProject, CredentialsFile, GcpAccessToken, Credentials);
    ghost var access := options;
    options := options + {Filter};
    options := options + {DefaultParallelism};
    options := options + {ProxyUri};
    options := options + {ProxyUsername};
    options := options + {ProxyPassword};
    AddedOneByOne(access + {Filter}, DefaultParallelism, ProxyUri, ProxyUsername, ProxyPassword);
    ghost var read := options;
    options := options + {BqEncodedCreateReadSessionRequest};
    options := options + {BqBackgroundThreadsPerStream};
    options := options + {Parallelism};
    options := options + {MaxParallelism};
    options := options + {ArrowCompressionCodec};
    AddedOneByOne(read + {BqEncodedCreateReadSessionRequest}, BqBackgroundThreadsPerStream,
      Parallelism, MaxParallelism, ArrowCompressionCodec);
    ghost var session := options;
    options := options + {PartitionField};
    options := options + {PartitionType};
    options := options + {PartitionExpirationMs};
    options := options + {PartitionRequireFilter};
    AddedOneByOne(session, PartitionField, PartitionType, PartitionExpirationMs,
      PartitionRequireFilter);
  }

  /** Proof helper that steers the solver: adding four elements one at a time adds them
      all. */
  lemma AddedOneByOne<T>(s: set<T>, a: T, b: T, c: T, d: T)
    ensures s + {a} + {b} + {c} + {d} == s + {a, b, c, d}
  {
  }

  /** Five required options. */
  lemma RequiredOptionCount()
    ensures |RequiredKeys()| == 5
  {
  }

  /** Which of the declared groups an option belongs to: the required options, then the
      four groups of optional ones. */
  function Group(option: ConfigOption): nat
  {
    match option
    case TableOption | SelectedFieldsOption | QueryOption | MaterializationProjectOption
       | MaterializationDatasetOption => 0
    case Format | ParentProject | CredentialsFile | GcpAccessToken | Credentials => 1
    case Filter | DefaultParallelism | ProxyUri | ProxyUsername | ProxyPassword => 2
    case BqEncodedCreateReadSessionRequest | BqBackgroundThreadsPerStream | Parallelism
       | MaxParallelism | ArrowCompressionCodec => 3
    case PartitionField | PartitionType | PartitionExpirationMs | PartitionRequireFilter => 4
  }

  /** Every option of a group display carries that group's number. */
  lemma GroupNumbers()
    ensures forall o :: o in RequiredKeys() ==> Group(o) == 0
    ensures forall o :: o in AccessKeys() ==> Group(o) == 1
    ensures forall o :: o in ReadKeys() ==> Group(o) == 2
    ensures forall o :: o in SessionKeys() ==> Group(o) == 3
    ensures forall o :: o in PartitionKeys() ==> Group(o) == 4
  {
  }

  /** The sizes of the four groups of optional options. */
  lemma GroupSizes()
    ensures |AccessKeys()| == 5 && |ReadKeys()| == 5
    ensures |SessionKeys()| == 5 && |PartitionKeys()| == 4
  {
  }

  /** The size of a union of two sets with nothing in common. */
  lemma DisjointUnionSize<T>(a: set<T>, b: set<T>)
    requires a !! b
    ensures |a + b| == |a| + |b|
  {
  }

  /** Nineteen optional options. */
  lemma OptionalOptionCount()
    ensures |OptionalKeys()| == 19
  {
    var access, read, session, partition := AccessKeys(), ReadKeys(), SessionKeys(), PartitionKeys();
    GroupSizes();
    GroupNumbers();
    DisjointUnionSize(access, read);
    DisjointUnionSize(access + read, session);
    DisjointUnionSize(access + read + session, partition);
  }

  /** The keys of a union of options are the keys of either part. */
  lemma KeyNamesUnion(a: set<ConfigOption>, b: set<ConfigOption>)
    ensures KeyNames(a + b) == KeyNames(a) + KeyNames(b)
  {
    forall k | k in KeyNames(a) + KeyNames(b) ensures k in KeyNames(a + b) {
      if k in KeyNames(a) {
        var o :| o in a && Key(o) == k;
        assert o in a + b;
      } else {
        var o :| o in b && Key(o) == k;
        assert o in a + b;
      }
    }
  }

  lemma AccessKeyNames()
    ensures KeyNames(AccessKeys()) == {"format", "parentProject", "credentialsFile", "gcpAccessToken", "credentials"}
  {
    assert Key(Format) in KeyNames(AccessKeys());
    assert Key(ParentProject) in KeyNames(AccessKeys());
    assert Key(CredentialsFile) in KeyNames(AccessKeys());
    assert Key(GcpAccessToken) in KeyNames(AccessKeys());
    assert Key(Credentials) in KeyNames(AccessKeys());
  }

  lemma ReadKeyNames()
    ensures KeyNames(ReadKeys()) == {"filter", "defaultParallelism", "proxyUri", "proxyUsername", "proxyPassword"}
  {
    assert Key(Filter) in KeyNames(ReadKeys());
    assert Key(DefaultParallelism) in KeyNames(ReadKeys());
    assert Key(ProxyUri) in KeyNames(ReadKeys());
    assert Key(ProxyUsername) in KeyNames(ReadKeys());
    assert Key(ProxyPassword) in KeyNames(ReadKeys());
  }

  lemma SessionKeyNames()
    ensures KeyNames(SessionKeys()) == {"bqEncodedCreateReadSessionRequest", "bqBackgroundThreadsPerStream",
                                        "parallelism", "maxParallelism", "arrowCompressionCodec"}
  {
    assert Key(BqEncodedCreateReadSessionRequest) in KeyNames(SessionKeys());
    assert Key(BqBackgroundThreadsPerStream) in KeyNames(SessionKeys());
    assert Key(Parallelism) in KeyNames(SessionKeys());
    assert Key(MaxParallelism) in KeyNames(SessionKeys());
    assert Key(ArrowCompressionCodec) in KeyNames(SessionKeys());
  }

  lemma PartitionKeyNames()
    ensures KeyNames(PartitionKeys()) == {"partitionField", "partitionType", "partitionExpirationMs",
                                          "partitionRequireFilter"}
  {
    assert Key(PartitionField) in KeyNames(PartitionKeys());
    assert Key(PartitionType) in KeyNames(PartitionKeys());
    assert Key(PartitionExpirationMs) in KeyNames(PartitionKeys());
    assert Key(PartitionRequireFilter) in KeyNames(PartitionKeys());
  }

  /** The keys of the optional options are the nineteen the factory's test expects. */
  lemma OptionalOptionKeys()
    ensures KeyNames(OptionalKeys()) ==
      {"format", "parentProject", "credentialsFile", "gcpAccessToken", "credentials",
       "filter", "defaultParallelism", "proxyUri", "proxyUsername", "proxyPassword",
       "bqEncodedCreateReadSessionRequest", "bqBackgroundThreadsPerStream", "parallelism",
       "maxParallelism", "arrowCompressionCodec",
       "partitionField", "partitionType", "partitionExpirationMs", "partitionRequireFilter"}
  {
    var access, read, session, partition := AccessKeys(), ReadKeys(), SessionKeys(), PartitionKeys();
    KeyNamesUnion(access, read);
    KeyNamesUnion(access + read, session);
    KeyNamesUnion(access + read + session, partition);
    AccessKeyNames();
    ReadKeyNames();
    SessionKeyNames();
    PartitionKeyNames();
  }

  /** No option is both required and optional. */
  lemma OptionSetsDisjoint()
    ensures RequiredKeys() !! OptionalKeys()
  {
    GroupNumbers();
  }

  // ---------------------------------------------------------------------------
  // Filtering a validation failure down to the options really missing

  /** The marker Flink's validation message puts before the list of missing keys. */
  const Marker := "Missing required options are:"

  /** The exception text up to and including the last marker. Without a marker the end
      index is |Marker| - 1, which fails on a shorter text. */
  function ExceptionHead(exceptionString: string): (r: Result<string>)
    ensures r.Err? <==> LastIndexOf(exceptionString, Marker) == -1 && |exceptionString| < |Marker| - 1
    ensures r.Err? ==> r.error == IndexOutOfBounds
    ensures LastIndexOf(exceptionString, Marker) != -1 ==>
      r == Ok(exceptionString[..LastIndexOf(exceptionString, Marker)] + Marker)
    ensures LastIndexOf(exceptionString, Marker) == -1 && r.Ok? ==>
      r.value == exceptionString[..|Marker| - 1]
  {
    var end := LastIndexOf(exceptionString, Marker) + |Marker|;
    if end > |exceptionString| then Err(IndexOutOfBounds)
    else
      assert LastIndexOf(exceptionString, Marker) != -1 ==>
        exceptionString[..end] == exceptionString[..end - |Marker|] + Marker;
      Ok(exceptionString[..end])
  }

  /** The keys listed after the last marker, one per line. */
  function MissingArgs(exceptionString: string): (r: seq<string>)
    ensures |r| >= 1
    ensures forall k :: 0 <= k < |r| ==> '\n' !in r[k]
    ensures Join(r, "\n") == Trim(SubstringAfterLast(exceptionString, Marker))
  {
    TrimmedRejoin(SubstringAfterLast(exceptionString, Marker), '\n');
    JavaSplit(Trim(SubstringAfterLast(exceptionString, Marker)), '\n')
  }

  /** The keys a mode does not need: a table does not need the query options, a query does
      not need the table options; with neither, every key is needed. */
  function UnneededKeys(options: map<string, string>): (r: seq<string>)
    ensures Distinct(r)
    ensures Table in options ==> r == [Query, MaterializationProject, MaterializationDataset]
    ensures Table !in options && Query in options ==> r == [Table, SelectedFields]
    ensures Table !in options && Query !in options ==> r == []
  {
    if Table in options then [Query, MaterializationProject, MaterializationDataset]
    else if Query in options then [Table, SelectedFields]
    else []
  }

  /** ArrayList.remove(Object) once per key, in order. */
  function RemoveEach<T(==)>(xs: seq<T>, keys: seq<T>): (r: seq<T>)
    ensures multiset(r) == multiset(xs) - multiset(keys)
  {
    if keys == [] then xs
    else
      var once := RemoveFirst(xs, keys[0]);
      assert multiset(keys) == multiset{keys[0]} + multiset(keys[1..]) by {
        assert keys == [keys[0]] + keys[1..];
      }
      RemoveEach(once, keys[1..])
  }

  /** What ensureExpectedException returns: null (None) when nothing the mode needs is
      missing, otherwise the head, a blank line and the missing keys one per line. The text
      starts with "null" because the message is appended to a null reference. */
  function ExpectedException(exceptionString: string, options: map<string, string>)
    : (r: Result<Option<string>>)
    ensures r.Err? <==> ExceptionHead(exceptionString).Err?
    ensures r.Ok? ==>
      (r.value.None? <==> RemoveEach(MissingArgs(exceptionString), UnneededKeys(options)) == [])
    ensures r.Ok? && r.value.Some? ==>
      r.value.value == "null" + ExceptionHead(exceptionString).value + "\n\n" +
                       Join(RemoveEach(MissingArgs(exceptionString), UnneededKeys(options)), "\n")
  {
    match ExceptionHead(exceptionString)
    case Err(e) => Err(e)
    case Ok(head) =>
      var missing := RemoveEach(MissingArgs(exceptionString), UnneededKeys(options));
      if missing == [] then Ok(None)
      else Ok(Some("null" + head + "\n\n" + Join(missing, "\n")))
  }

  /** ensureExpectedException as the Java code runs it: the index arithmetic, the head cut,
      and the list it changes in place. `ExpectedException` is the specification this method
      is proved equal to; the lemmas about validation failures are stated on that function,
      which lemmas can call and a method cannot replace. */
  method EnsureExpectedException(exceptionString: string, options: map<string, string>)
    returns (r: Result<Option<string>>)
    ensures r == ExpectedException(exceptionString, options)
  {
    var errorString: Option<string> := None;
    var stringToCheck := Marker;
    var end := LastIndexOf(exceptionString, stringToCheck) + |stringToCheck|;
    if end > |exceptionString| {
      return Err(IndexOutOfBounds);
    }
    var exceptionHead := exceptionString[..end];
    assert ExceptionHead(exceptionString) == Ok(exceptionHead);
    var missingArgs := JavaSplit(Trim(SubstringAfterLast(exceptionString, stringToCheck)), '\n');
    assert missingArgs == MissingArgs(exceptionString);
    missingArgs := RemoveUnneeded(missingArgs, options);
    if missingArgs != [] {
      errorString := Some("null" + exceptionHead + "\n\n" + Join(missingArgs, "\n"));
    }
    r := Ok(errorString);
    ExpectedExceptionOf(exceptionString, options, exceptionHead);
  }

  /** The list removals of ensureExpectedException, one `remove(Object)` call after another:
      with a table, the query options are removed from the missing keys; with a query, the
      table options. `RemoveEach` is the specification it is proved equal to, and the one the
      lemmas use. */
  method RemoveUnneeded(missingArgs: seq<string>, options: map<string, string>)
    returns (remaining: seq<string>)
    ensures remaining == RemoveEach(missingArgs, UnneededKeys(options))
  {
    remaining := missingArgs;
    ghost var keys := UnneededKeys(options);
    if Table in options {
      RemoveEachStep(remaining, keys);
      remaining := RemoveFirst(remaining, Query);
      RemoveEachStep(remaining, keys[1..]);
      remaining := RemoveFirst(remaining, MaterializationProject);
      RemoveEachStep(remaining, keys[2..]);
      remaining := RemoveFirst(remaining, MaterializationDataset);
      assert keys[2..][1..] == [];
    } else if Query in options {
      RemoveEachStep(remaining, keys);
      remaining := RemoveFirst(remaining, Table);
      RemoveEachStep(remaining, keys[1..]);
      remaining := RemoveFirst(remaining, SelectedFields);
      assert keys[1..][1..] == [];
    }
  }

  /** ExpectedException once the head is known. */
  lemma ExpectedExceptionOf(exceptionString: string, options: map<string, string>, head: string)
    requires ExceptionHead(exceptionString) == Ok(head)
    ensures var missing := RemoveEach(MissingArgs(exceptionString), UnneededKeys(options));
      ExpectedException(exceptionString, options)
        == if missing == [] then Ok(None) else Ok(Some("null" + head + "\n\n" + Join(missing, "\n")))
  {
  }

  /** Removing the first key, then the others. */
  lemma RemoveEachStep<T>(xs: seq<T>, keys: seq<T>)
    requires keys != []
    ensures RemoveEach(xs, keys) == RemoveEach(RemoveFirst(xs, keys[0]), keys[1..])
  {
  }

  /** Removing keys leaves nothing exactly when every element of a duplicate-free list is
      one of the keys. */
  lemma RemoveEachEmptyIff<T>(xs: seq<T>, keys: seq<T>)
    requires Distinct(xs)
    ensures RemoveEach(xs, keys) == [] <==> forall x :: x in xs ==> x in keys
  {
    var r := RemoveEach(xs, keys);
    if forall x :: x in xs ==> x in keys {
      forall x ensures multiset(r)[x] == 0 {
        DistinctCount(xs, x);
        if x in xs {
          assert x in multiset(keys);
        }
      }
      assert multiset(r) == multiset{};
    } else {
      var x :| x in xs && x !in keys;
      DistinctCount(xs, x);
      assert x in multiset(r);
    }
  }

  /** A validation failure is swallowed exactly when every key it lists (without repeats)
      is one the chosen mode does not need. */
  lemma AcceptedIffOnlyUnneededMissing(exceptionString: string, options: map<string, string>)
    requires ExceptionHead(exceptionString).Ok?
    requires Distinct(MissingArgs(exceptionString))
    ensures ExpectedException(exceptionString, options) == Ok(None) <==>
      forall k :: k in MissingArgs(exceptionString) ==> k in UnneededKeys(options)
  {
    RemoveEachEmptyIff(MissingArgs(exceptionString), UnneededKeys(options));
  }

  /** With a table set, a failure that lists only query options is swallowed; with a query
      set, one that lists only table options is. */
  lemma ModeSpecificOptionsAreNotMissing(exceptionString: string, options: map<string, string>)
    requires ExceptionHead(exceptionString).Ok?
    requires Distinct(MissingArgs(exceptionString))
    requires Table in options ==>
      forall k :: k in MissingArgs(exceptionString) ==>
        k == Query || k == MaterializationProject || k == MaterializationDataset
    requires Table !in options && Query in options ==>
      forall k :: k in MissingArgs(exceptionString) ==> k == Table || k == SelectedFields
    requires Table in options || Query in options
    ensures ExpectedException(exceptionString, options) == Ok(None)
  {
    ModeSpecificKeysUnneeded(MissingArgs(exceptionString), options);
    AcceptedIffOnlyUnneededMissing(exceptionString, options);
  }

  lemma ModeSpecificKeysUnneeded(missing: seq<string>, options: map<string, string>)
    requires Table in options ==>
      forall k :: k in missing ==> k == Query || k == MaterializationProject || k == MaterializationDataset
    requires Table !in options && Query in options ==>
      forall k :: k in missing ==> k == Table || k == SelectedFields
    requires Table in options || Query in options
    ensures forall k :: k in missing ==> k in UnneededKeys(options)
  {
  }

  /** A required key a mode does need is never filtered away: with a table set, a missing
      selectedFields is always reported. */
  lemma TableModeStillReportsSelectedFields(exceptionString: string, options: map<string, string>)
    requires ExceptionHead(exceptionString).Ok?
    requires Table in options && SelectedFields in MissingArgs(exceptionString)
    ensures ExpectedException(exceptionString, options).value.Some?
  {
    SelectedFieldsNotUnneededWithTable(options);
    RemoveEachKeeps(MissingArgs(exceptionString), UnneededKeys(options), SelectedFields);
  }

  /** An element that is not one of the keys survives their removal. */
  lemma RemoveEachKeeps<T>(xs: seq<T>, keys: seq<T>, x: T)
    requires x in xs && x !in keys
    ensures x in RemoveEach(xs, keys)
  {
    assert x in multiset(xs);
    assert multiset(keys)[x] == 0;
    assert x in multiset(RemoveEach(xs, keys));
  }

  lemma SelectedFieldsNotUnneededWithTable(options: map<string, string>)
    requires Table in options
    ensures SelectedFields !in UnneededKeys(options)
  {
    assert |SelectedFields| != |Query| && |SelectedFields| != |MaterializationProject|;
    assert |MaterializationProject| == |MaterializationDataset|;
  }

  /** Removing keys that are all non-empty leaves a lone empty piece alone. */
  lemma {:induction false} RemoveEachKeepsEmptyPiece(keys: seq<string>)
    requires "" !in keys
    ensures RemoveEach([""], keys) == [""]
  {
    if keys != [] {
      assert keys[0] != "";
      assert RemoveFirst([""], keys[0]) == [""];
      RemoveEachKeepsEmptyPiece(keys[1..]);
    }
  }

  /** Without the marker the text after it is empty, and Java's split of an empty string is
      one empty piece. */
  lemma NoMarkerMissingArgs(exceptionString: string)
    requires LastIndexOf(exceptionString, Marker) == -1
    ensures MissingArgs(exceptionString) == [""]
  {
    assert SubstringAfterLast(exceptionString, Marker) == "";
    assert Trim("") == "";
    assert JavaSplit("", '\n') == [""];
  }

  /** Without the marker, the lone empty piece is removed by no key: the failure is reported
      with the first |Marker| - 1 characters as its head and nothing after the blank line. */
  lemma NoMarkerIsReported(exceptionString: string, options: map<string, string>)
    requires LastIndexOf(exceptionString, Marker) == -1
    requires |exceptionString| >= |Marker| - 1
    ensures ExpectedException(exceptionString, options)
         == Ok(Some("null" + exceptionString[..|Marker| - 1] + "\n\n"))
  {
    NoMarkerMissingArgs(exceptionString);
    RemoveEachKeepsEmptyPiece(UnneededKeys(options));
    var head := exceptionString[..|Marker| - 1];
    assert ExceptionHead(exceptionString) == Ok(head);
    assert Join([""], "\n") == "";
    assert "null" + head + "\n\n" + "" == "null" + head + "\n\n";
  }

  // ---------------------------------------------------------------------------
  // Read streams and field lists

  /** The data format the read session was opened with. */
  datatype DataFormat = Arrow | Avro | Unspecified

  /** What the read session offers: its stream names, in session order, and the field names
      of its Arrow and Avro schemas. */
  datatype ReadSession = ReadSession(
    streams: seq<string>,
    arrowSchemaFields: seq<string>,
    avroSchemaFields: seq<string>,
    avroSchema: string)

  /** Each name followed by a comma, concatenated. */
  function CommaTerminated(names: seq<string>): (r: string)
    ensures names == [] <==> r == ""
    ensures r != [] ==> r[|r| - 1] == ','
  {
    if names == [] then "" else names[0] + "," + CommaTerminated(names[1..])
  }

  /** CommaTerminated of a concatenation is the concatenation of CommaTerminated. */
  lemma {:induction false} CommaTerminatedAppend(a: seq<string>, b: seq<string>)
    ensures CommaTerminated(a + b) == CommaTerminated(a) + CommaTerminated(b)
  {
    if a != [] {
      CommaTerminatedAppend(a[1..], b);
      assert (a + b)[1..] == a[1..] + b;
      var head := a[0] + ",";
      assert CommaTerminated(a + b) == head + CommaTerminated(a[1..] + b);
      Regroup(head, CommaTerminated(a[1..]), CommaTerminated(b));
    } else {
      assert a + b == b;
    }
  }

  /** s.substring(0, s.length() - 1): fails on the empty string. */
  function StripLastChar(s: string): (r: Result<string>)
    ensures r.Err? <==> s == ""
    ensures r.Err? ==> r.error == IndexOutOfBounds
    ensures r.Ok? ==> s == r.value + [s[|s| - 1]]
  {
    if s == "" then Err(IndexOutOfBounds) else Ok(s[..|s| - 1])
  }

  /** Stripping the last comma of a comma-terminated list gives the names joined by commas,
      provided there is at least one name. */
  lemma {:induction false} StripCommaTerminated(names: seq<string>)
    ensures names == [] ==> StripLastChar(CommaTerminated(names)).Err?
    ensures names != [] ==> StripLastChar(CommaTerminated(names)) == Ok(Join(names, ","))
  {
    if |names| == 1 {
      assert CommaTerminated(names) == names[0] + ",";
      assert CommaTerminated(names)[..|names[0]|] == names[0];
    } else if |names| >= 2 {
      StripCommaTerminated(names[1..]);
      var rest := CommaTerminated(names[1..]);
      assert rest == Join(names[1..], ",") + ",";
      assert CommaTerminated(names) == names[0] + "," + Join(names[1..], ",") + ",";
      assert CommaTerminated(names)[..|CommaTerminated(names)| - 1] == names[0] + "," + Join(names[1..], ",");
    }
  }

  /** The read-stream names of a session, appended one by one, in session order. */
  method ReadStreamNames(streams: seq<string>) returns (readStreamNames: seq<string>)
    ensures readStreamNames == streams
  {
    readStreamNames := [];
    var i := 0;
    while i < |streams|
      invariant 0 <= i <= |streams|
      invariant readStreamNames == streams[..i]
    {
      readStreamNames := readStreamNames + [streams[i]];
      i := i + 1;
    }
    assert streams[..i] == streams;
  }

  /** What the factory hands to the table source: the read streams and the options the
      catalog table gains. */
  datatype TableSource = TableSource(readStreams: seq<string>, catalogOptions: map<string, string>)

  /** The factory fields a read session adds to. */
  datatype FieldState = FieldState(arrowFields: string, avroFields: string, avroSchema: Option<string>)

  /** The fields after reading a session of the given format: an Arrow session appends its
      Arrow field names, an Avro session its Avro field names and replaces the Avro schema,
      any other format changes nothing. */
  function Absorb(state: FieldState, session: ReadSession, format: DataFormat): (r: FieldState)
    ensures format.Arrow? ==> r.arrowFields == state.arrowFields + CommaTerminated(session.arrowSchemaFields)
    ensures format.Avro? ==> r.avroFields == state.avroFields + CommaTerminated(session.avroSchemaFields)
    ensures format.Avro? ==> r.avroSchema == Some(session.avroSchema)
    ensures !format.Arrow? ==> r.arrowFields == state.arrowFields
    ensures !format.Avro? ==> r.avroFields == state.avroFields && r.avroSchema == state.avroSchema
  {
    match format
    case Arrow => state.(arrowFields := state.arrowFields + CommaTerminated(session.arrowSchemaFields))
    case Avro => FieldState(state.arrowFields, state.avroFields + CommaTerminated(session.avroSchemaFields),
                            Some(session.avroSchema))
    case Unspecified => state
  }

  /** Validation succeeded, or its failure was swallowed by ensureExpectedException. */
  predicate ValidationPasses(validationFailure: Option<string>, options: map<string, string>) {
    validationFailure.None? || ExpectedException(validationFailure.value, options) == Ok(None)
  }

  class BigQueryDynamicTableFactory {
    /** Field names accumulated over every read session opened so far, each followed by a
        comma; the factory never resets them. */
    var arrowFields: string
    var avroFields: string
    /** The Avro schema of the last Avro session (null until there was one). */
    var avroSchema: Option<string>

    function State(): FieldState
      reads this
    {
      FieldState(arrowFields, avroFields, avroSchema)
    }

    constructor ()
      ensures arrowFields == "" && avroFields == "" && avroSchema == None
    {
      arrowFields := "";
      avroFields := "";
      avroSchema := None;
    }

    /** getReadStreamNames: lists the session's streams and appends the field names of the
        schema of the session's format to the matching field string. A failure to read the
        session that is an IOException is rethrown as FlinkBigQueryException. */
    method GetReadStreamNames(session: Result<ReadSession>, format: DataFormat)
      returns (r: Result<seq<string>>)
      modifies this
      ensures session.Err? ==> unchanged(this)
      ensures session.Err? && session.error.IOException? ==>
        r == Err(FlinkBigQueryException("Error while reading big query session:"))
      ensures session.Err? && !session.error.IOException? ==> r == Err(session.error)
      ensures session.Ok? ==> r == Ok(session.value.streams)
      ensures session.Ok? ==> State() == Absorb(old(State()), session.value, format)
    {
      if session.Err? {
        if session.error.IOException? {
          return Err(FlinkBigQueryException("Error while reading big query session:"));
        }
        return Err(session.error);
      }
      var readStreamNames := ReadStreamNames(session.value.streams);
      if format.Arrow? {
        AppendFields(session.value.arrowSchemaFields, true);
      } else if format.Avro? {
        avroSchema := Some(session.value.avroSchema);
        AppendFields(session.value.avroSchemaFields, false);
      }
      r := Ok(readStreamNames);
    }

    /** The forEach over the schema's fields: each name and a comma are appended to the
        Arrow or the Avro field string. */
    method AppendFields(fields: seq<string>, arrow: bool)
      modifies this
      ensures arrow ==> arrowFields == old(arrowFields) + CommaTerminated(fields) && avroFields == old(avroFields)
      ensures !arrow ==> avroFields == old(avroFields) + CommaTerminated(fields) && arrowFields == old(arrowFields)
      ensures avroSchema == old(avroSchema)
    {
      var i := 0;
      while i < |fields|
        invariant 0 <= i <= |fields|
        invariant avroSchema == old(avroSchema)
        invariant arrow ==> arrowFields == old(arrowFields) + CommaTerminated(fields[..i]) && avroFields == old(avroFields)
        invariant !arrow ==> avroFields == old(avroFields) + CommaTerminated(fields[..i]) && arrowFields == old(arrowFields)
      {
        ghost var piece := fields[i] + ",";
        CommaTerminatedAppend(fields[..i], [fields[i]]);
        assert fields[..i + 1] == fields[..i] + [fields[i]];
        assert CommaTerminated([fields[i]]) == piece by {
          assert [fields[i]][1..] == [];
          NothingAppended(piece);
        }
        if arrow {
          Regroup(old(arrowFields), CommaTerminated(fields[..i]), piece);
          Regroup(arrowFields, fields[i], ",");
          arrowFields := arrowFields + fields[i] + ",";
        } else {
          Regroup(old(avroFields), CommaTerminated(fields[..i]), piece);
          Regroup(avroFields, fields[i], ",");
          avroFields := avroFields + fields[i] + ",";
        }
        i := i + 1;
      }
      assert fields[..i] == fields;
    }

    /** createDynamicTableSource, from the outcome of Flink's option validation on: a
        validation failure that ensureExpectedException does not swallow becomes an
        IllegalArgumentException; then the streams are listed and the catalog options gain
        the selected fields and the field list of the session's format without its trailing
        comma (and, for a non-Arrow session, the Avro schema). */
    method CreateDynamicTableSource(validationFailure: Option<string>, options: map<string, string>,
                                    session: Result<ReadSession>, format: DataFormat,
                                    configSelectedFields: string)
      returns (r: Result<TableSource>)
      modifies this
      ensures validationFailure.Some? && ExpectedException(validationFailure.value, options).Err? ==>
        r == Err(IndexOutOfBounds) && unchanged(this)
      ensures validationFailure.Some? && ExpectedException(validationFailure.value, options).Ok? &&
              ExpectedException(validationFailure.value, options).value.Some? ==>
        r == Err(IllegalArgument(ExpectedException(validationFailure.value, options).value.value)) &&
        unchanged(this)
      ensures session.Err? ==> r.Err?
      ensures ValidationPasses(validationFailure, options) && session.Err? ==>
        unchanged(this) &&
        r == Err(if session.error.IOException?
                 then FlinkBigQueryException("Error while reading big query session:")
                 else session.error)
      ensures ValidationPasses(validationFailure, options) && session.Ok? && format.Arrow? && arrowFields == "" ==>
        r == Err(IndexOutOfBounds)
      ensures ValidationPasses(validationFailure, options) && session.Ok? && !format.Arrow? && avroFields == "" ==>
        r == Err(IndexOutOfBounds)
      ensures ValidationPasses(validationFailure, options) && session.Ok? && !format.Arrow? && avroFields != "" &&
              avroSchema.None?
        ==> r == Err(NullPointer)
      ensures ValidationPasses(validationFailure, options) && session.Ok? ==>
        State() == Absorb(old(State()), session.value, format) &&
        (r.Ok? <==> if format.Arrow? then arrowFields != "" else avroFields != "" && avroSchema.Some?)
      ensures r.Ok? ==> session.Ok? && r.value.readStreams == session.value.streams
      ensures r.Ok? && format.Arrow? ==>
        StripLastChar(arrowFields).Ok? &&
        r.value.catalogOptions == options[SelectedFields := configSelectedFields]
                                         ["arrowFields" := StripLastChar(arrowFields).value]
      ensures r.Ok? && !format.Arrow? ==>
        StripLastChar(avroFields).Ok? && avroSchema.Some? &&
        r.value.catalogOptions == options[SelectedFields := configSelectedFields]
                                         ["avroFields" := StripLastChar(avroFields).value]
                                         ["avroSchema" := avroSchema.value]
    {
      if validationFailure.Some? {
        var exceptionString := EnsureExpectedException(validationFailure.value, options);
        if exceptionString.Err? {
          return Err(exceptionString.error);
        }
        if exceptionString.value.Some? {
          return Err(IllegalArgument(exceptionString.value.value));
        }
      }
      var readStreams := GetReadStreamNames(session, format);
      if readStreams.Err? {
        return Err(readStreams.error);
      }
      var catalogOptions := options[SelectedFields := configSelectedFields];
      if format.Arrow? {
        var fields := StripLastChar(arrowFields);
        if fields.Err? {
          return Err(fields.error);
        }
        catalogOptions := catalogOptions["arrowFields" := fields.value];
      } else {
        var fields := StripLastChar(avroFields);
        if fields.Err? {
          return Err(fields.error);
        }
        catalogOptions := catalogOptions["avroFields" := fields.value];
        if avroSchema.None? {
          return Err(NullPointer);
        }
        catalogOptions := catalogOptions["avroSchema" := avroSchema.value];
      }
      r := Ok(TableSource(readStreams.value, catalogOptions));
    }
  }

  /** On a fresh factory, one Arrow session with at least one field hands the table source
      exactly the session's field names joined by commas. */
  method FreshFactoryArrowFields(session: ReadSession, options: map<string, string>,
                                 configSelectedFields: string)
    returns (r: Result<TableSource>)
    requires session.arrowSchemaFields != []
    ensures r.Ok? && r.value.readStreams == session.streams
    ensures "arrowFields" in r.value.catalogOptions
    ensures r.value.catalogOptions["arrowFields"] == Join(session.arrowSchemaFields, ",")
  {
    var factory := new BigQueryDynamicTableFactory();
    StripCommaTerminated(session.arrowSchemaFields);
    r := factory.CreateDynamicTableSource(None, options, Ok(session), Arrow, configSelectedFields);
    assert factory.arrowFields == CommaTerminated(session.arrowSchemaFields);
    assert r.Ok?;
  }

  /** The field strings are never reset: a second Arrow session on the same factory appends
      its names after the first session's. */
  method SecondSessionAccumulates(factory: BigQueryDynamicTableFactory, first: ReadSession,
                                  second: ReadSession)
    requires factory.arrowFields == ""
    modifies factory
    ensures factory.arrowFields == CommaTerminated(first.arrowSchemaFields + second.arrowSchemaFields)
  {
    var _ := factory.GetReadStreamNames(Ok(first), Arrow);
    var _ := factory.GetReadStreamNames(Ok(second), Arrow);
    CommaTerminatedAppend(first.arrowSchemaFields, second.arrowSchemaFields);
  }

  /** A session read that fails with an I/O error, after validation passed, is reported as a
      FlinkBigQueryException and leaves the accumulated field strings and schema as they were. */
  method FailedSessionReadIsWrapped(factory: BigQueryDynamicTableFactory, options: map<string, string>,
                                    format: DataFormat, message: string)
    returns (r: Result<TableSource>)
    modifies factory
    ensures r == Err(FlinkBigQueryException("Error while reading big query session:"))
    ensures factory.arrowFields == old(factory.arrowFields)
    ensures factory.avroFields == old(factory.avroFields) && factory.avroSchema == old(factory.avroSchema)
  {
    r := factory.CreateDynamicTableSource(None, options, Err(IOException(message)), format, "");
  }
}
