/** The field part of ModelDef: the model struct lists the object's fields in
    ascending name order, each with its Go name, Go type and a tag string
    carrying the json name, an omitempty marker for optional fields and the
    gorm and sql tags taken from the field's metadata. Date-time strings
    become *time.Time fields and are remembered for the time helpers. */
module StructGen {
  import opened GoStrings
  import opened Metadata
  import opened Design
  import opened PrimaryKey

  const SqlTag: string := "#sqltag"
  const UnexpectedType: string := "gorma bug: unexpected data structure type"

  // ---------------------------------------------------------------------
  // sort.Strings on the collected keys

  /** `k` placed into the ascending sequence `ks`. */
  function Insert(ks: seq<string>, k: string): seq<string> {
    if ks == [] then [k]
    else if LexLe(k, ks[0]) then [k] + ks
    else [ks[0]] + Insert(ks[1..], k)
  }

  /** Insertion sort of `ks`. */
  function Sort(ks: seq<string>): seq<string> {
    if ks == [] then [] else Insert(Sort(ks[1..]), ks[0])
  }

  predicate Distinct(ks: seq<string>) {
    forall i, j :: 0 <= i < j < |ks| ==> ks[i] != ks[j]
  }

  lemma {:induction false} InsertPermutes(ks: seq<string>, k: string)
    ensures multiset(Insert(ks, k)) == multiset(ks) + multiset{k}
  {
    if ks != [] && !LexLe(k, ks[0]) {
      InsertPermutes(ks[1..], k);
      assert ks == [ks[0]] + ks[1..];
    }
  }

  lemma {:induction false} InsertSorted(ks: seq<string>, k: string)
    requires StrictlySorted(ks) && k !in ks
    ensures StrictlySorted(Insert(ks, k))
  {
    if ks == [] {
    } else if LexLe(k, ks[0]) {
      forall j | 0 <= j < |ks|
        ensures LexLt(k, ks[j])
      {
        if j > 0 {
          LexLeTransitive(k, ks[0], ks[j]);
        }
      }
    } else {
      LexLeTotal(k, ks[0]);
      var rest := Insert(ks[1..], k);
      InsertSorted(ks[1..], k);
      InsertPermutes(ks[1..], k);
      forall j | 0 <= j < |rest|
        ensures LexLt(ks[0], rest[j])
      {
        assert rest[j] in multiset(rest);
        if rest[j] != k {
          assert rest[j] in multiset(ks[1..]);
          var m :| 0 <= m < |ks[1..]| && ks[1..][m] == rest[j];
          assert ks[1..][m] == ks[m + 1];
        }
      }
    }
  }

  lemma {:induction false} SortPermutes(ks: seq<string>)
    ensures multiset(Sort(ks)) == multiset(ks)
  {
    if ks != [] {
      SortPermutes(ks[1..]);
      InsertPermutes(Sort(ks[1..]), ks[0]);
      assert ks == [ks[0]] + ks[1..];
    }
  }

  lemma DistinctTail(ks: seq<string>)
    requires Distinct(ks) && ks != []
    ensures Distinct(ks[1..]) && ks[0] !in ks[1..]
  {
    forall i, j | 0 <= i < j < |ks[1..]|
      ensures ks[1..][i] != ks[1..][j]
    {
      assert ks[1..][i] == ks[i + 1] && ks[1..][j] == ks[j + 1];
    }
    forall m | 0 <= m < |ks[1..]|
      ensures ks[1..][m] != ks[0]
    {
      assert ks[1..][m] == ks[m + 1];
    }
  }

  /** sort.Strings on distinct keys: ascending, and the same keys. */
  lemma {:induction false} SortSpec(ks: seq<string>)
    requires Distinct(ks)
    ensures StrictlySorted(Sort(ks))
    ensures multiset(Sort(ks)) == multiset(ks)
  {
    SortPermutes(ks);
    if ks != [] {
      DistinctTail(ks);
      SortSpec(ks[1..]);
      assert ks[0] !in multiset(Sort(ks[1..]));
      InsertSorted(Sort(ks[1..]), ks[0]);
    }
  }

  lemma SortedTail(a: seq<string>)
    requires StrictlySorted(a) && a != []
    ensures StrictlySorted(a[1..])
  {
    forall p, q | 0 <= p < q < |a[1..]|
      ensures LexLt(a[1..][p], a[1..][q])
    {
      assert a[1..][p] == a[p + 1] && a[1..][q] == a[q + 1];
    }
  }

  lemma MultisetTail(a: seq<string>)
    requires a != []
    ensures multiset(a[1..]) == multiset(a) - multiset{a[0]}
  {
    assert a == [a[0]] + a[1..];
  }

  /** Two strictly ascending arrangements of the same keys start alike. */
  lemma SortedHeads(a: seq<string>, b: seq<string>)
    requires StrictlySorted(a) && StrictlySorted(b) && multiset(a) == multiset(b) && a != []
    ensures b != [] && a[0] == b[0]
  {
    assert a[0] in multiset(b);
    var i :| 0 <= i < |b| && b[i] == a[0];
    assert b[0] in multiset(a);
    var j :| 0 <= j < |a| && a[j] == b[0];
    if i != 0 && j != 0 {
      assert LexLe(b[0], a[0]) && LexLe(a[0], b[0]);
      LexLeAntisymmetric(a[0], b[0]);
    }
  }

  /** A strictly ascending sequence is the only ascending arrangement of its
      elements: sorting is deterministic even though the keys were collected
      in map order. */
  lemma {:induction false} SortedUnique(a: seq<string>, b: seq<string>)
    requires StrictlySorted(a) && StrictlySorted(b) && multiset(a) == multiset(b)
    ensures a == b
    decreases |a|
  {
    if a != [] {
      SortedHeads(a, b);
      MultisetTail(a);
      MultisetTail(b);
      SortedTail(a);
      SortedTail(b);
      SortedUnique(a[1..], b[1..]);
      assert a == [a[0]] + a[1..] && b == [b[0]] + b[1..];
    }
  }

  // ---------------------------------------------------------------------
  // field lines

  /** The gorm part of a field's tags: the user's "#gormtag" wins; a
      date-time field otherwise names its column, the lower-cased field name. */
  function GormPart(name: string, isTime: bool, gormTag: Option<string>): string {
    match gormTag
    case Some(v) => " gorm:\"" + v + "\""
    case None => if isTime then " gorm:\"column:" + Lower(name) + "\"" else ""
  }

  /** The sql part of a field's tags, from "#sqltag". */
  function SqlPart(sqlTag: Option<string>): string {
    match sqlTag
    case Some(v) => " sql:\"" + v + "\""
    case None => ""
  }

  function OmitPart(required: bool): string {
    if required then "" else ",omitempty"
  }

  /** The field's struct tags. */
  function TagText(name: string, required: bool, isTime: bool, gormTag: Option<string>, sqlTag: Option<string>): string {
    " `json:\"" + name + OmitPart(required) + "\"" + GormPart(name, isTime, gormTag) + SqlPart(sqlTag) + "`"
  }

  function DescPart(description: string): string {
    if description == "" then "" else "// " + description + "\n"
  }

  /** The text of one field: a tab, its description as a comment line, then
      its Go name, Go type and tags. Date-time fields are *time.Time and
      their name gets the suffix "Time". */
  function FieldText(name: string, a: Attribute, required: bool, gormTag: Option<string>, sqlTag: Option<string>,
                     goify: string -> string, goTypeDef: Attribute -> string): string
  {
    var isTime := DateTimeFormatted(a.kind, a.validations);
    var typedef := if isTime then "*time.Time" else goTypeDef(a);
    var fname := if isTime then goify(name) + "Time" else goify(name);
    "\t" + (DescPart(a.description) + fname + " " + typedef + TagText(name, required, isTime, gormTag, sqlTag) + "\n")
  }

  /** The fields named by `keys`, in that order; `gorms` and `sqls` are the
      tag values the metadata lookups returned for each. */
  function FieldsText(fields: map<string, Attribute>, keys: seq<string>, required: set<string>,
                      gorms: seq<Option<string>>, sqls: seq<Option<string>>,
                      goify: string -> string, goTypeDef: Attribute -> string): string
    requires forall k :: k in keys ==> k in fields
    requires |gorms| == |keys| && |sqls| == |keys|
  {
    if keys == [] then ""
    else
      var n := |keys| - 1;
      FieldsText(fields, keys[..n], required, gorms[..n], sqls[..n], goify, goTypeDef)
        + FieldText(keys[n], fields[keys[n]], keys[n] in required, gorms[n], sqls[n], goify, goTypeDef)
  }

  /** The Go names of the date-time fields among `keys`, in order. */
  function TimeFieldNames(fields: map<string, Attribute>, keys: seq<string>, goify: string -> string): seq<string>
    requires forall k :: k in keys ==> k in fields
  {
    if keys == [] then []
    else
      var n := |keys| - 1;
      var a := fields[keys[n]];
      TimeFieldNames(fields, keys[..n], goify) + (if DateTimeFormatted(a.kind, a.validations) then [goify(keys[n])] else [])
  }

  /** `o` is what a metadata lookup of `tag` may return. */
  ghost predicate LookupResult(md: MetadataDef, tag: string, o: Option<string>) {
    (o.Some? <==> HasMeta(md, tag)) && (o.Some? ==> IsMetaValue(md, tag, o.value))
  }

  ghost predicate TagChoices(fields: map<string, Attribute>, keys: seq<string>, gorms: seq<Option<string>>, sqls: seq<Option<string>>)
    requires forall k :: k in keys ==> k in fields
    requires |gorms| == |keys| && |sqls| == |keys|
    reads fields.Values
  {
    forall i :: 0 <= i < |keys| ==>
      LookupResult(fields[keys[i]].metadata, GormTag, gorms[i]) && LookupResult(fields[keys[i]].metadata, SqlTag, sqls[i])
  }

  /** The keys of `fields`, collected in map order and then sorted. */
  method SortedKeys(fields: map<string, Attribute>) returns (keys: seq<string>)
    ensures StrictlySorted(keys)
    ensures multiset(keys) == multiset(fields.Keys)
    ensures forall k :: k in keys <==> k in fields
  {
    var collected := CollectKeys(fields);
    SortSpec(collected);
    keys := Sort(collected);
    forall k
      ensures k in keys <==> k in fields
    {
      assert k in keys <==> k in multiset(keys);
    }
  }

  /** The keys of the map, gathered in Go's unspecified iteration order. */
  method CollectKeys(fields: map<string, Attribute>) returns (collected: seq<string>)
    ensures Distinct(collected)
    ensures multiset(collected) == multiset(fields.Keys)
  {
    collected := [];
    var remaining := fields.Keys;
    while remaining != {}
      invariant remaining <= fields.Keys
      invariant Distinct(collected)
      invariant multiset(collected) == multiset(fields.Keys - remaining)
      invariant forall k :: k in collected ==> k !in remaining
      decreases remaining
    {
      var n :| n in remaining;
      collected := collected + [n];
      remaining := remaining - {n};
    }
    assert fields.Keys - remaining == fields.Keys;
  }

  /** One field line after its leading tab, with the Go name it records when
      the field is a date-time; `gormTag` and `sqlTag` report what the
      metadata lookups found. */
  method WriteField(name: string, a: Attribute, required: bool, goify: string -> string, goTypeDef: Attribute -> string)
    returns (line: string, timeName: Option<string>, ghost gormTag: Option<string>, ghost sqlTag: Option<string>)
    ensures LookupResult(a.metadata, GormTag, gormTag) && LookupResult(a.metadata, SqlTag, sqlTag)
    ensures "\t" + line == FieldText(name, a, required, gormTag, sqlTag, goify, goTypeDef)
    ensures timeName == (if DateTimeFormatted(a.kind, a.validations) then Some(goify(name)) else None)
  {
    var typedef;
    var isTime := IsDateTimeFormat(a);
    if isTime {
      typedef := "*time.Time";
    } else {
      typedef := goTypeDef(a);
    }

    var fname := goify(name);
    timeName := None;
    if isTime {
      timeName := Some(fname);
      fname := fname + "Time";
    }

    var omit := "";
    var gorm, sql := "", "";
    if !required {
      omit := ",omitempty";
    }
    var gv, gok := MetaLookup(a.metadata, GormTag);
    if gok {
      gorm := " gorm:\"" + gv + "\"";
    } else if isTime {
      gorm := " gorm:\"column:" + Lower(name) + "\"";
    }
    var sv, sok := MetaLookup(a.metadata, SqlTag);
    if sok {
      sql := " sql:\"" + sv + "\"";
    }
    var tags := " `json:\"" + name + omit + "\"" + gorm + sql + "`";
    var desc := a.description;
    if desc != "" {
      desc := "// " + desc + "\n";
    }
    line := desc + fname + " " + typedef + tags + "\n";
    gormTag := if gok then Some(gv) else None;
    sqlTag := if sok then Some(sv) else None;
    assert tags == TagText(name, required, isTime, gormTag, sqlTag);
  }

  /** The loop state after the fields named by `keys`. */
  ghost predicate FieldsWritten(fields: map<string, Attribute>, keys: seq<string>, required: set<string>,
                                gorms: seq<Option<string>>, sqls: seq<Option<string>>,
                                goify: string -> string, goTypeDef: Attribute -> string,
                                buffer: string, timeFields: seq<string>)
    reads fields.Values
  {
    && (forall k :: k in keys ==> k in fields)
    && |gorms| == |keys| && |sqls| == |keys|
    && TagChoices(fields, keys, gorms, sqls)
    && buffer == "struct {\n" + FieldsText(fields, keys, required, gorms, sqls, goify, goTypeDef)
    && timeFields == TimeFieldNames(fields, keys, goify)
  }

  lemma FieldsTextSnoc(fields: map<string, Attribute>, keys: seq<string>, j: nat, required: set<string>,
                       gorms: seq<Option<string>>, sqls: seq<Option<string>>,
                       goify: string -> string, goTypeDef: Attribute -> string, g: Option<string>, q: Option<string>)
    requires j < |keys| && forall k :: k in keys ==> k in fields
    requires |gorms| == j && |sqls| == j
    ensures FieldsText(fields, keys[..j + 1], required, gorms + [g], sqls + [q], goify, goTypeDef)
         == FieldsText(fields, keys[..j], required, gorms, sqls, goify, goTypeDef)
            + FieldText(keys[j], fields[keys[j]], keys[j] in required, g, q, goify, goTypeDef)
  {
    var ks := keys[..j + 1];
    assert ks[..j] == keys[..j] && ks[j] == keys[j];
    assert (gorms + [g])[..j] == gorms && (sqls + [q])[..j] == sqls;
    assert (gorms + [g])[j] == g && (sqls + [q])[j] == q;
  }

  lemma TimeFieldNamesSnoc(fields: map<string, Attribute>, keys: seq<string>, j: nat, goify: string -> string)
    requires j < |keys| && forall k :: k in keys ==> k in fields
    ensures var a := fields[keys[j]];
      TimeFieldNames(fields, keys[..j + 1], goify)
      == TimeFieldNames(fields, keys[..j], goify) + (if DateTimeFormatted(a.kind, a.validations) then [goify(keys[j])] else [])
  {
    assert keys[..j + 1][..j] == keys[..j];
  }

  lemma TagChoicesSnoc(fields: map<string, Attribute>, keys: seq<string>, j: nat,
                       gorms: seq<Option<string>>, sqls: seq<Option<string>>, g: Option<string>, q: Option<string>)
    requires j < |keys| && forall k :: k in keys ==> k in fields
    requires |gorms| == j && |sqls| == j
    requires TagChoices(fields, keys[..j], gorms, sqls)
    requires LookupResult(fields[keys[j]].metadata, GormTag, g) && LookupResult(fields[keys[j]].metadata, SqlTag, q)
    ensures TagChoices(fields, keys[..j + 1], gorms + [g], sqls + [q])
  {
    var ks := keys[..j + 1];
    forall i | 0 <= i < j + 1
      ensures LookupResult(fields[ks[i]].metadata, GormTag, (gorms + [g])[i])
           && LookupResult(fields[ks[i]].metadata, SqlTag, (sqls + [q])[i])
    {
      if i < j {
        assert ks[i] == keys[..j][i];
      }
    }
  }

  lemma FieldsWrittenStep(fields: map<string, Attribute>, keys: seq<string>, j: nat, required: set<string>,
                          gorms: seq<Option<string>>, sqls: seq<Option<string>>,
                          goify: string -> string, goTypeDef: Attribute -> string,
                          timeFields: seq<string>, timeName: Option<string>, g: Option<string>, q: Option<string>,
                          buffer': string, timeFields': seq<string>)
    requires j < |keys| && forall k :: k in keys ==> k in fields
    requires |gorms| == j && |sqls| == j
    requires TagChoices(fields, keys[..j], gorms, sqls)
    requires timeFields == TimeFieldNames(fields, keys[..j], goify)
    requires var a := fields[keys[j]];
      && LookupResult(a.metadata, GormTag, g) && LookupResult(a.metadata, SqlTag, q)
      && timeName == (if DateTimeFormatted(a.kind, a.validations) then Some(goify(keys[j])) else None)
    requires buffer' == "struct {\n" + FieldsText(fields, keys[..j + 1], required, gorms + [g], sqls + [q], goify, goTypeDef)
    requires timeFields' == if timeName.Some? then timeFields + [timeName.value] else timeFields
    ensures FieldsWritten(fields, keys[..j + 1], required, gorms + [g], sqls + [q], goify, goTypeDef, buffer', timeFields')
  {
    TimeStep(fields, keys, j, goify, timeFields, timeName, timeFields');
    TagChoicesSnoc(fields, keys, j, gorms, sqls, g, q);
  }

  lemma TimeStep(fields: map<string, Attribute>, keys: seq<string>, j: nat, goify: string -> string,
                 timeFields: seq<string>, timeName: Option<string>, timeFields': seq<string>)
    requires j < |keys| && forall k :: k in keys ==> k in fields
    requires timeFields == TimeFieldNames(fields, keys[..j], goify)
    requires var a := fields[keys[j]];
      timeName == (if DateTimeFormatted(a.kind, a.validations) then Some(goify(keys[j])) else None)
    requires timeFields' == if timeName.Some? then timeFields + [timeName.value] else timeFields
    ensures timeFields' == TimeFieldNames(fields, keys[..j + 1], goify)
  {
    TimeFieldNamesSnoc(fields, keys, j, goify);
  }

  /** The buffer part of FieldsWrittenStep. */
  lemma BufferStep(fields: map<string, Attribute>, keys: seq<string>, j: nat, required: set<string>,
                   gorms: seq<Option<string>>, sqls: seq<Option<string>>,
                   goify: string -> string, goTypeDef: Attribute -> string,
                   buffer: string, line: string, g: Option<string>, q: Option<string>, buffer': string)
    requires j < |keys| && forall k :: k in keys ==> k in fields
    requires |gorms| == j && |sqls| == j
    requires buffer == "struct {\n" + FieldsText(fields, keys[..j], required, gorms, sqls, goify, goTypeDef)
    requires "\t" + line == FieldText(keys[j], fields[keys[j]], keys[j] in required, g, q, goify, goTypeDef)
    requires buffer' == buffer + "\t" + line
    ensures buffer' == "struct {\n" + FieldsText(fields, keys[..j + 1], required, gorms + [g], sqls + [q], goify, goTypeDef)
  {
    Assoc(buffer, "\t", line);
    FieldsTextSnoc(fields, keys, j, required, gorms, sqls, goify, goTypeDef, g, q);
    Assoc("struct {\n", FieldsText(fields, keys[..j], required, gorms, sqls, goify, goTypeDef), "\t" + line);
  }

  /** One iteration of the loop over the sorted keys: the tab and the line
      of key j appended to the buffer, and its Go name to the date-time
      names when the field is a date-time. */
  method AppendField(buffer0: string, times0: seq<string>, fields: map<string, Attribute>, keys: seq<string>, j: nat,
                     required: set<string>, goify: string -> string, goTypeDef: Attribute -> string,
                     ghost gorms: seq<Option<string>>, ghost sqls: seq<Option<string>>)
    returns (buffer: string, times: seq<string>, ghost g: Option<string>, ghost q: Option<string>)
    requires j < |keys| && forall k :: k in keys ==> k in fields
    requires FieldsWritten(fields, keys[..j], required, gorms, sqls, goify, goTypeDef, buffer0, times0)
    ensures FieldsWritten(fields, keys[..j + 1], required, gorms + [g], sqls + [q], goify, goTypeDef, buffer, times)
  {
    var name := keys[j];
    buffer := buffer0 + "\t";
    var line, timeName;
    line, timeName, g, q := WriteField(name, fields[name], name in required, goify, goTypeDef);
    times := times0;
    if timeName.Some? {
      times := times + [timeName.value];
    }
    buffer := buffer + line;
    BufferStep(fields, keys, j, required, gorms, sqls, goify, goTypeDef, buffer0, line, g, q, buffer);
    FieldsWrittenStep(fields, keys, j, required, gorms, sqls, goify, goTypeDef, times0, timeName, g, q, buffer, times);
  }

  /** The result of ModelDef: the struct text, or the panic raised for a
      type that is not an object. */
  datatype Generated = Struct(text: string) | Panic(message: string)

  /** The loop over the sorted keys, which also collects the Go names of
      the date-time fields. */
  method WriteFields(buffer0: string, fields: map<string, Attribute>, keys: seq<string>, required: set<string>,
                     goify: string -> string, goTypeDef: Attribute -> string)
    returns (buffer: string, times: seq<string>, ghost gorms: seq<Option<string>>, ghost sqls: seq<Option<string>>)
    requires buffer0 == "struct {\n"
    requires forall k :: k in keys ==> k in fields
    ensures FieldsWritten(fields, keys, required, gorms, sqls, goify, goTypeDef, buffer, times)
  {
    buffer := buffer0;
    times := [];
    gorms, sqls := [], [];
    var j := 0;
    while j < |keys|
      invariant 0 <= j <= |keys|
      invariant FieldsWritten(fields, keys[..j], required, gorms, sqls, goify, goTypeDef, buffer, times)
    {
      ghost var g, q;
      buffer, times, g, q := AppendField(buffer, times, fields, keys, j, required, goify, goTypeDef, gorms, sqls);
      gorms, sqls := gorms + [g], sqls + [q];
      j := j + 1;
    }
    assert keys[..j] == keys;
  }

  /** The text part of ModelDef, once the key is normalised: the fields in
      ascending name order, then the sections and the closing brace. */
  method WriteStruct(fields: map<string, Attribute>, required: set<string>, goify: string -> string,
                     goTypeDef: Attribute -> string, sections: string)
    returns (r: Generated, times: seq<string>, ghost keys: seq<string>, ghost gorms: seq<Option<string>>,
             ghost sqls: seq<Option<string>>, ghost body: string)
    ensures StrictlySorted(keys)
    ensures multiset(keys) == multiset(fields.Keys)
    ensures r == Struct(body + sections + "}")
    ensures FieldsWritten(fields, keys, required, gorms, sqls, goify, goTypeDef, body, times)
  {
    var buffer := "struct {\n";
    var sorted := SortedKeys(fields);
    keys := sorted;
    buffer, times, gorms, sqls := WriteFields(buffer, fields, sorted, required, goify, goTypeDef);
    body := buffer;

    buffer := buffer + sections;
    buffer := buffer + "}";
    r := Struct(buffer);
  }

  /** The generator's package state: the Go names of the date-time fields of
      the last model generated. */
  class Generator {
    var timeFields: seq<string>

    constructor ()
      ensures timeFields == []
    {
      timeFields := [];
    }

    /** ModelDef, up to the optional sections: `sections` stands for the
        text the section generators contribute after the fields. The object
        first has its primary key normalised; its fields are then written in
        ascending name order. */
    method ModelDef(res: UserType, goify: string -> string, goTypeDef: Attribute -> string, sections: string)
      returns (r: Generated, ghost keys: seq<string>, ghost gorms: seq<Option<string>>, ghost sqls: seq<Option<string>>,
               ghost idName: string, ghost pkTag: string)
      modifies this, res.objectType, if res.objectType == null then {} else res.objectType.fields.Values
      ensures res.objectType == null ==> r == Panic(UnexpectedType) && timeFields == []
      ensures res.objectType != null ==> KeyNormalised(res.objectType, old(res.objectType.fields), res.metadata, idName, pkTag)
      // the text written
      ensures res.objectType != null ==>
        var obj := res.objectType;
        && StrictlySorted(keys)
        && multiset(keys) == multiset(obj.fields.Keys)
        && exists body :: r == Struct(body + sections + "}")
             && FieldsWritten(obj.fields, keys, res.required, gorms, sqls, goify, goTypeDef, body, timeFields)
    {
      var obj := res.objectType;
      if obj == null {
        timeFields := [];
        return Panic(UnexpectedType), [], [], [], "", "";
      }
      idName, pkTag := SetupIDAttribute(obj, res.metadata);
      label normalised:
      var times;
      ghost var body;
      r, times, keys, gorms, sqls, body := WriteStruct(obj.fields, res.required, goify, goTypeDef, sections);
      timeFields := times;
      assert unchanged@normalised(obj, obj.fields.Values);
    }
  }

  // ---------------------------------------------------------------------
  // properties of the field text

  lemma TagTextSplit(name: string, required: bool, isTime: bool, gormTag: Option<string>, sqlTag: Option<string>)
    ensures TagText(name, required, isTime, gormTag, sqlTag)
         == " `json:\"" + name + (OmitPart(required) + ("\"" + GormPart(name, isTime, gormTag) + SqlPart(sqlTag) + "`"))
  {
    var h, o, t := " `json:\"" + name, OmitPart(required), "\"" + GormPart(name, isTime, gormTag) + SqlPart(sqlTag) + "`";
    Assoc(h, o, t);
  }

  /** The json tag carries ",omitempty" exactly for the fields that are not
      required. */
  lemma JsonOmitEmptyIff(name: string, required: bool, isTime: bool, gormTag: Option<string>, sqlTag: Option<string>)
    ensures IsPrefix(" `json:\"" + name + ",omitempty", TagText(name, required, isTime, gormTag, sqlTag)) <==> !required
  {
    var head := " `json:\"" + name;
    var rest := "\"" + GormPart(name, isTime, gormTag) + SqlPart(sqlTag) + "`";
    TagTextSplit(name, required, isTime, gormTag, sqlTag);
    PrefixAfterHead(head, ",omitempty", OmitPart(required) + rest);
    if required {
      assert (OmitPart(required) + rest)[0] == '"';
    } else {
      assert IsPrefix(",omitempty", ",omitempty" + rest);
    }
  }

  /** A user "#gormtag" overrides the column tag of a date-time field: with a
      gorm tag given, the tags do not depend on whether the field is a
      date-time, and they carry that gorm tag. */
  lemma GormTagOverrides(name: string, required: bool, v: string, sqlTag: Option<string>)
    ensures TagText(name, required, true, Some(v), sqlTag) == TagText(name, required, false, Some(v), sqlTag)
    ensures GormPart(name, true, Some(v)) == " gorm:\"" + v + "\""
  {
  }

  /** Without a user gorm tag, exactly the date-time fields get a column
      tag, naming the lower-cased field. */
  lemma ColumnTagIffTime(name: string, isTime: bool)
    ensures GormPart(name, isTime, None) != "" <==> isTime
    ensures isTime ==> GormPart(name, isTime, None) == " gorm:\"column:" + Lower(name) + "\""
  {
  }

  /** The time fields are exactly the Go names of the date-time keys, in key
      order. */
  lemma {:induction false} TimeFieldNamesSpec(fields: map<string, Attribute>, keys: seq<string>, goify: string -> string)
    requires forall k :: k in keys ==> k in fields
    ensures |TimeFieldNames(fields, keys, goify)| <= |keys|
    ensures forall t :: t in TimeFieldNames(fields, keys, goify) <==>
      exists i :: 0 <= i < |keys| && DateTimeFormatted(fields[keys[i]].kind, fields[keys[i]].validations) && t == goify(keys[i])
  {
    if keys != [] {
      var n := |keys| - 1;
      TimeFieldNamesSpec(fields, keys[..n], goify);
      forall t
        ensures t in TimeFieldNames(fields, keys, goify) <==>
          exists i :: 0 <= i < |keys| && DateTimeFormatted(fields[keys[i]].kind, fields[keys[i]].validations) && t == goify(keys[i])
      {
        if t in TimeFieldNames(fields, keys[..n], goify) {
          var i :| 0 <= i < |keys[..n]| && DateTimeFormatted(fields[keys[..n][i]].kind, fields[keys[..n][i]].validations) && t == goify(keys[..n][i]);
          assert keys[..n][i] == keys[i];
        }
        if exists i :: 0 <= i < |keys| && DateTimeFormatted(fields[keys[i]].kind, fields[keys[i]].validations) && t == goify(keys[i]) {
          var i :| 0 <= i < |keys| && DateTimeFormatted(fields[keys[i]].kind, fields[keys[i]].validations) && t == goify(keys[i]);
          if i < n {
            assert keys[..n][i] == keys[i];
          }
        }
      }
    }
  }
}
