/** Association expansion: gorma metadata values list related types
    separated by commas ("#belongsto", "#hasmany", "#hasone") or entries of
    colon-separated segments ("#many2many"), and the generator turns them into
    struct fields or storage-interface methods, one group of lines per
    entry, in input order. */
module Associations {
  import opened GoStrings
  import opened Metadata

  const BelongsTo: string := "#belongsto"
  const HasMany: string := "#hasmany"
  const HasOne: string := "#hasone"
  const Many2Many: string := "#many2many"
  const SkipTimeStamps: string := "#skipts"

  // ---------------------------------------------------------------------
  // includeForeignKey

  /** The foreign-key field of each related type, in order. */
  function ForeignKeyFields(children: seq<string>): seq<string> {
    seq(|children|, i requires 0 <= i < |children| => children[i] + "ID int")
  }

  /** includeForeignKey: one "<child>ID int" line per comma-separated entry of
      "#belongsto"; nothing when the tag is absent. */
  method IncludeForeignKey(md: MetadataDef) returns (associations: string)
    ensures !HasMeta(md, BelongsTo) ==> associations == ""
    ensures HasMeta(md, BelongsTo) ==>
      exists v :: IsMetaValue(md, BelongsTo, v) && associations == Lines(ForeignKeyFields(Split(v, ',')))
  {
    associations := "";
    var assoc, ok := MetaLookup(md, BelongsTo);
    if ok {
      var children := Split(assoc, ',');
      var i := 0;
      while i < |children|
        invariant 0 <= i <= |children|
        invariant associations == Lines(ForeignKeyFields(children[..i]))
      {
        assert ForeignKeyFields(children[..i + 1]) == ForeignKeyFields(children[..i]) + [children[i] + "ID int"];
        LinesSnoc(ForeignKeyFields(children[..i]), children[i] + "ID int");
        associations := associations + children[i] + "ID int\n";
        i := i + 1;
      }
      assert children[..i] == children;
    }
  }

  /** Reading the foreign keys back: for a newline-free metadata value, the
      text holds exactly one line per entry, in order, each naming its entry. */
  lemma ForeignKeyLinesRead(v: string)
    requires '\n' !in v
    ensures Split(Lines(ForeignKeyFields(Split(v, ','))), '\n') == ForeignKeyFields(Split(v, ',')) + [""]
    ensures |ForeignKeyFields(Split(v, ','))| == |Split(v, ',')|
  {
    var cs := Split(v, ',');
    SplitKeepsOut(v, ',', '\n');
    var ls := ForeignKeyFields(cs);
    forall i | 0 <= i < |ls|
      ensures '\n' !in ls[i]
    {
      assert ls[i] == cs[i] + "ID int";
    }
    SplitLines(ls);
  }

  // ---------------------------------------------------------------------
  // includeChildren

  /** The has-many field of each related type: its plural, then a slice of it. */
  function HasManyFields(children: seq<string>, plural: string -> string): seq<string> {
    seq(|children|, i requires 0 <= i < |children| => plural(children[i]) + " []" + children[i])
  }

  /** The two has-one fields of each related type: the value and its id. */
  function HasOneFields(children: seq<string>): seq<string> {
    if children == [] then []
    else [children[0] + " " + children[0], children[0] + "ID *sql.NullInt64"] + HasOneFields(children[1..])
  }

  lemma HasOneFieldsSnoc(children: seq<string>, c: string)
    ensures HasOneFields(children + [c]) == HasOneFields(children) + [c + " " + c, c + "ID *sql.NullInt64"]
  {
    if children != [] {
      assert (children + [c])[1..] == children[1..] + [c];
      HasOneFieldsSnoc(children[1..], c);
    } else {
      assert children + [c] == [c];
    }
  }

  /** Two lines per has-one entry: line 2i declares the related value and
      line 2i+1 its nullable id. */
  lemma {:induction false} HasOneFieldsShape(children: seq<string>)
    ensures |HasOneFields(children)| == 2 * |children|
    ensures forall i :: 0 <= i < |children| ==>
      HasOneFields(children)[2 * i] == children[i] + " " + children[i] &&
      HasOneFields(children)[2 * i + 1] == children[i] + "ID *sql.NullInt64"
  {
    if children != [] {
      HasOneFieldsShape(children[1..]);
      var rest := HasOneFields(children[1..]);
      forall i | 1 <= i < |children|
        ensures HasOneFields(children)[2 * i] == children[i] + " " + children[i]
        ensures HasOneFields(children)[2 * i + 1] == children[i] + "ID *sql.NullInt64"
      {
        assert HasOneFields(children)[2 * i] == rest[2 * (i - 1)];
        assert HasOneFields(children)[2 * i + 1] == rest[2 * (i - 1) + 1];
        assert children[1..][i - 1] == children[i];
      }
    }
  }

  lemma LinesPair(a: string, b: string)
    ensures Lines([a, b]) == a + "\n" + (b + "\n")
  {
    assert [a, b][1..] == [b];
    assert Lines([b]) == b + "\n" + Lines([]);
  }

  /** One more has-one entry adds its two lines to the text. */
  lemma HasOneLinesSnoc(children: seq<string>, c: string)
    ensures Lines(HasOneFields(children + [c])) ==
      Lines(HasOneFields(children)) + c + " " + c + "\n" + c + "ID " + "*sql.NullInt64\n"
  {
    var value, id := c + " " + c, c + "ID *sql.NullInt64";
    HasOneFieldsSnoc(children, c);
    LinesAppend(HasOneFields(children), [value, id]);
    LinesPair(value, id);
    HasOneText(Lines(HasOneFields(children)), c);
  }

  lemma HasOneText(t: string, c: string)
    ensures t + (c + " " + c + "\n" + (c + "ID *sql.NullInt64" + "\n")) ==
      t + c + " " + c + "\n" + c + "ID " + "*sql.NullInt64\n"
  {
    assert "ID *sql.NullInt64" + "\n" == "ID " + "*sql.NullInt64\n";
  }

  /** The "#hasmany" part of includeChildren's text. */
  ghost predicate HasManySection(md: MetadataDef, text: string, plural: string -> string) {
    && (!HasMeta(md, HasMany) ==> text == "")
    && (HasMeta(md, HasMany) ==>
          exists v :: IsMetaValue(md, HasMany, v) && text == Lines(HasManyFields(Split(v, ','), plural)))
  }

  /** The "#hasone" part of includeChildren's text. */
  ghost predicate HasOneSection(md: MetadataDef, text: string) {
    && (!HasMeta(md, HasOne) ==> text == "")
    && (HasMeta(md, HasOne) ==>
          exists v :: IsMetaValue(md, HasOne, v) && text == Lines(HasOneFields(Split(v, ','))))
  }

  /** One more has-many entry, written as the generator writes it. */
  lemma HasManyStep(cs: seq<string>, i: nat, plural: string -> string, acc: string)
    requires i < |cs| && acc == Lines(HasManyFields(cs[..i], plural))
    ensures acc + plural(cs[i]) + " []" + cs[i] + "\n" == Lines(HasManyFields(cs[..i + 1], plural))
  {
    var line := plural(cs[i]) + " []" + cs[i];
    assert HasManyFields(cs[..i + 1], plural) == HasManyFields(cs[..i], plural) + [line];
    LinesSnoc(HasManyFields(cs[..i], plural), line);
  }

  /** One more has-one entry, written after the text `base` as the
      generator writes it. */
  lemma HasOneStep(cs: seq<string>, i: nat, base: string, acc: string)
    requires i < |cs| && acc == Lines(HasOneFields(cs[..i]))
    ensures base + acc + cs[i] + " " + cs[i] + "\n" + cs[i] + "ID " + "*sql.NullInt64\n" == base + Lines(HasOneFields(cs[..i + 1]))
  {
    var c := cs[i];
    assert cs[..i + 1] == cs[..i] + [c];
    HasOneLinesSnoc(cs[..i], c);
    var t := acc + c + " " + c + "\n" + c + "ID " + "*sql.NullInt64\n";
    assert base + acc + c + " " + c + "\n" + c + "ID " + "*sql.NullInt64\n" == base + t;
  }

  /** includeChildren: the "#hasmany" lines, then two lines per "#hasone"
      entry; `plural` stands for inflection.Plural. */
  method IncludeChildren(md: MetadataDef, plural: string -> string) returns (associations: string)
    ensures exists many, one :: associations == many + one && HasManySection(md, many, plural) && HasOneSection(md, one)
  {
    associations := "";
    var assoc, ok := MetaLookup(md, HasMany);
    if ok {
      var children := Split(assoc, ',');
      var i := 0;
      while i < |children|
        invariant 0 <= i <= |children|
        invariant associations == Lines(HasManyFields(children[..i], plural))
      {
        HasManyStep(children, i, plural, associations);
        associations := associations + plural(children[i]) + " []" + children[i] + "\n";
        i := i + 1;
      }
      assert children[..i] == children;
    }
    ghost var many := associations;
    assert HasManySection(md, many, plural);
    ghost var one := "";
    assert associations == many + one;
    var assoc1, ok1 := MetaLookup(md, HasOne);
    if ok1 {
      var children := Split(assoc1, ',');
      var i := 0;
      while i < |children|
        invariant 0 <= i <= |children|
        invariant associations == many + Lines(HasOneFields(children[..i]))
      {
        HasOneStep(children, i, many, Lines(HasOneFields(children[..i])));
        associations := associations + children[i] + " " + children[i] + "\n";
        associations := associations + children[i] + "ID " + "*sql.NullInt64\n";
        i := i + 1;
      }
      assert children[..i] == children;
      one := Lines(HasOneFields(children));
    }
    assert HasOneSection(md, one);
  }

  // ---------------------------------------------------------------------
  // includeMany2Many and StorageDef

  /** The colon-separated segments of one entry. */
  function Pieces(child: string): seq<string> {
    Split(child, ':')
  }

  /** The index of the first entry with fewer than `n` segments, or |cs|. */
  function FirstShort(cs: seq<string>, n: nat): (j: nat)
    ensures j <= |cs|
    ensures forall i :: 0 <= i < j ==> |Pieces(cs[i])| >= n
    ensures j < |cs| ==> |Pieces(cs[j])| < n
  {
    if cs == [] then 0
    else if |Pieces(cs[0])| < n then 0
    else 1 + FirstShort(cs[1..], n)
  }

  /** The many-to-many field of an entry "<field>:<type>:<join table>". */
  function Many2ManyLine(p: seq<string>): string
    requires |p| >= 3
  {
    p[0] + "\t []" + p[1] + "\t" + "`gorm:\"many2many:" + p[2] + ";\"`"
  }

  function Many2ManyFields(cs: seq<string>): seq<string>
    requires forall i :: 0 <= i < |cs| ==> |Pieces(cs[i])| >= 3
  {
    seq(|cs|, i requires 0 <= i < |cs| => Many2ManyLine(Pieces(cs[i])))
  }

  /** The result of expanding the entries: the lines, or the panic of the
      first entry with fewer than three segments, which Go raises when it
      indexes the first missing segment (index = length). */
  function Many2ManyOutcome(cs: seq<string>): Outcome<string> {
    var j := FirstShort(cs, 3);
    if j < |cs| then OutOfRange(|Pieces(cs[j])|, |Pieces(cs[j])|)
    else Ok(Lines(Many2ManyFields(cs)))
  }

  /** One more many-to-many entry, written as the generator writes it. */
  lemma Many2ManyStep(cs: seq<string>, i: nat, acc: string)
    requires i < |cs| && forall j :: 0 <= j <= i ==> |Pieces(cs[j])| >= 3
    requires acc == Lines(Many2ManyFields(cs[..i]))
    ensures var p := Pieces(cs[i]);
      acc + p[0] + "\t []" + p[1] + "\t" + "`gorm:\"many2many:" + p[2] + ";\"`\n" == Lines(Many2ManyFields(cs[..i + 1]))
  {
    var p := Pieces(cs[i]);
    var line := Many2ManyLine(p);
    assert Many2ManyFields(cs[..i + 1]) == Many2ManyFields(cs[..i]) + [line];
    LinesSnoc(Many2ManyFields(cs[..i]), line);
    Many2ManySuffix();
    Many2ManyRegroup(acc, p[0], "\t []", p[1], "\t", "`gorm:\"many2many:", p[2], ";\"`", ";\"`\n", "\n");
  }

  lemma Many2ManySuffix()
    ensures ";\"`" + "\n" == ";\"`\n"
  {
  }

  /** The many-to-many line regrouped, on opaque pieces. */
  lemma Many2ManyRegroup(acc: string, p0: string, s1: string, p1: string, s2: string, s3: string, p2: string,
                         t: string, tn: string, nl: string)
    requires tn == t + nl
    ensures acc + (p0 + s1 + p1 + s2 + s3 + p2 + t) + nl == acc + p0 + s1 + p1 + s2 + s3 + p2 + tn
  {
  }

  /** includeMany2Many. */
  method IncludeMany2Many(md: MetadataDef) returns (r: Outcome<string>)
    ensures !HasMeta(md, Many2Many) ==> r == Ok("")
    ensures HasMeta(md, Many2Many) ==>
      exists v :: IsMetaValue(md, Many2Many, v) && r == Many2ManyOutcome(Split(v, ','))
  {
    var associations := "";
    var assoc, ok := MetaLookup(md, Many2Many);
    if ok {
      var children := Split(assoc, ',');
      var i := 0;
      while i < |children|
        invariant 0 <= i <= |children|
        invariant forall j :: 0 <= j < i ==> |Pieces(children[j])| >= 3
        invariant associations == Lines(Many2ManyFields(children[..i]))
      {
        var pieces := Split(children[i], ':');
        if |pieces| < 3 {
          assert FirstShort(children, 3) == i;
          return OutOfRange(|pieces|, |pieces|);
        }
        Many2ManyStep(children, i, associations);
        associations := associations + pieces[0] + "\t []" + pieces[1] + "\t" + "`gorm:\"many2many:" + pieces[2] + ";\"`\n";
        i := i + 1;
      }
      assert children[..i] == children;
      assert FirstShort(children, 3) == |children|;
    }
    return Ok(associations);
  }

  /** The many-to-many expansion succeeds exactly when every entry has at
      least three segments; otherwise it fails at the first short entry. */
  lemma Many2ManyOkIff(cs: seq<string>)
    ensures Many2ManyOutcome(cs).Ok? <==> forall i :: 0 <= i < |cs| ==> |Pieces(cs[i])| >= 3
    ensures Many2ManyOutcome(cs).OutOfRange? ==> Many2ManyOutcome(cs).index in {1, 2}
  {
    var j := FirstShort(cs, 3);
    if j < |cs| {
      assert |Pieces(cs[j])| >= 1;
    }
  }

  /** The storage-interface methods of an entry "<name>:<type>[:...]": list,
      add and delete. */
  function StorageLines(p: seq<string>): seq<string>
    requires |p| >= 2
  {
    ["List" + p[0] + "(context.Context, int) []" + p[1],
     "Add" + p[1] + "(context.Context, int, int) (error)",
     "Delete" + p[1] + "(context.Context, int, int) error "]
  }

  function StorageFields(cs: seq<string>): seq<string>
    requires forall i :: 0 <= i < |cs| ==> |Pieces(cs[i])| >= 2
  {
    if cs == [] then [] else StorageLines(Pieces(cs[0])) + StorageFields(cs[1..])
  }

  lemma StorageFieldsSnoc(cs: seq<string>, c: string)
    requires forall i :: 0 <= i < |cs| ==> |Pieces(cs[i])| >= 2
    requires |Pieces(c)| >= 2
    ensures StorageFields(cs + [c]) == StorageFields(cs) + StorageLines(Pieces(c))
  {
    if cs != [] {
      assert (cs + [c])[1..] == cs[1..] + [c];
      StorageFieldsSnoc(cs[1..], c);
    } else {
      assert cs + [c] == [c];
    }
  }

  /** Three methods per entry: line 3i lists, 3i+1 adds and 3i+2 deletes,
      all naming the entry's second segment as the related type. */
  lemma {:induction false} StorageFieldsShape(cs: seq<string>)
    requires forall i :: 0 <= i < |cs| ==> |Pieces(cs[i])| >= 2
    ensures |StorageFields(cs)| == 3 * |cs|
    ensures forall i :: 0 <= i < |cs| ==> StorageFields(cs)[3 * i .. 3 * i + 3] == StorageLines(Pieces(cs[i]))
  {
    if cs != [] {
      StorageFieldsShape(cs[1..]);
      var rest := StorageFields(cs[1..]);
      var all := StorageFields(cs);
      assert all == StorageLines(Pieces(cs[0])) + rest;
      forall i | 0 <= i < |cs|
        ensures all[3 * i .. 3 * i + 3] == StorageLines(Pieces(cs[i]))
      {
        if i > 0 {
          assert all[3 * i .. 3 * i + 3] == rest[3 * (i - 1) .. 3 * (i - 1) + 3];
          assert cs[1..][i - 1] == cs[i];
        }
      }
    }
  }

  /** One more storage entry, written as the generator writes it. */
  lemma StorageStep(cs: seq<string>, i: nat, acc: string)
    requires i < |cs| && forall j :: 0 <= j <= i ==> |Pieces(cs[j])| >= 2
    requires acc == Lines(StorageFields(cs[..i]))
    ensures var p := Pieces(cs[i]);
      acc + "List" + p[0] + "(context.Context, int) []" + p[1] + "\n"
        + "Add" + p[1] + "(context.Context, int, int) (error)\n"
        + "Delete" + p[1] + "(context.Context, int, int) error \n"
      == Lines(StorageFields(cs[..i + 1]))
  {
    var p := Pieces(cs[i]);
    var ls := StorageLines(p);
    assert cs[..i + 1] == cs[..i] + [cs[i]];
    StorageFieldsSnoc(cs[..i], cs[i]);
    LinesAppend(StorageFields(cs[..i]), ls);
    assert ls[1..] == [ls[1], ls[2]] && ls[1..][1..] == [ls[2]];
    assert Lines([ls[2]]) == ls[2] + "\n" + Lines([]);
    assert Lines(ls) == ls[0] + "\n" + (ls[1] + "\n" + (ls[2] + "\n"));
    StorageText(acc, p[0], p[1]);
  }

  lemma StorageText(acc: string, name: string, typ: string)
    ensures acc + ("List" + name + "(context.Context, int) []" + typ + "\n"
        + ("Add" + typ + "(context.Context, int, int) (error)" + "\n"
        + ("Delete" + typ + "(context.Context, int, int) error " + "\n")))
      == acc + "List" + name + "(context.Context, int) []" + typ + "\n"
        + "Add" + typ + "(context.Context, int, int) (error)\n"
        + "Delete" + typ + "(context.Context, int, int) error \n"
  {
    StorageSuffixes();
    Regroup(acc, "List", name, "(context.Context, int) []", typ, "\n",
      "Add", "(context.Context, int, int) (error)", "(context.Context, int, int) (error)\n",
      "Delete", "(context.Context, int, int) error ", "(context.Context, int, int) error \n");
  }

  /** The literal concatenations ending the Add and Delete lines. */
  lemma StorageSuffixes()
    ensures "(context.Context, int, int) (error)" + "\n" == "(context.Context, int, int) (error)\n"
    ensures "(context.Context, int, int) error " + "\n" == "(context.Context, int, int) error \n"
  {
  }

  /** The three storage lines regrouped, on opaque pieces. */
  lemma Regroup(acc: string, s1: string, p0: string, s2: string, p1: string, nl: string,
                s3: string, t3: string, t3n: string, s4: string, t4: string, t4n: string)
    requires t3n == t3 + nl && t4n == t4 + nl
    ensures acc + (s1 + p0 + s2 + p1 + nl + (s3 + p1 + t3 + nl + (s4 + p1 + t4 + nl)))
      == acc + s1 + p0 + s2 + p1 + nl + s3 + p1 + t3n + s4 + p1 + t4n
  {
  }

  function StorageOutcome(cs: seq<string>): Outcome<string> {
    var j := FirstShort(cs, 2);
    if j < |cs| then OutOfRange(1, 1)
    else Ok(Lines(StorageFields(cs)))
  }

  /** StorageDef: the storage-interface methods for the "#many2many"
      entries of a user type's metadata. */
  method StorageDef(md: MetadataDef) returns (r: Outcome<string>)
    ensures !HasMeta(md, Many2Many) ==> r == Ok("")
    ensures HasMeta(md, Many2Many) ==>
      exists v :: IsMetaValue(md, Many2Many, v) && r == StorageOutcome(Split(v, ','))
  {
    var associations := "";
    var assoc, ok := MetaLookup(md, Many2Many);
    if ok {
      var children := Split(assoc, ',');
      var i := 0;
      while i < |children|
        invariant 0 <= i <= |children|
        invariant forall j :: 0 <= j < i ==> |Pieces(children[j])| >= 2
        invariant associations == Lines(StorageFields(children[..i]))
      {
        var pieces := Split(children[i], ':');
        if |pieces| < 2 {
          assert FirstShort(children, 2) == i;
          return OutOfRange(1, |pieces|);
        }
        StorageStep(children, i, associations);
        associations := associations + "List" + pieces[0] + "(context.Context, int) []" + pieces[1] + "\n";
        associations := associations + "Add" + pieces[1] + "(context.Context, int, int) (error)\n";
        associations := associations + "Delete" + pieces[1] + "(context.Context, int, int) error \n";
        i := i + 1;
      }
      assert children[..i] == children;
      assert FirstShort(children, 2) == |children|;
    }
    return Ok(associations);
  }

  /** StorageDef succeeds exactly when every entry has a second segment. */
  lemma StorageOkIff(cs: seq<string>)
    ensures StorageOutcome(cs).Ok? <==> forall i :: 0 <= i < |cs| ==> |Pieces(cs[i])| >= 2
  {
  }

  /** An entry that satisfies includeMany2Many also satisfies StorageDef. */
  lemma Many2ManyOkStorageOk(cs: seq<string>)
    requires Many2ManyOutcome(cs).Ok?
    ensures StorageOutcome(cs).Ok?
  {
    Many2ManyOkIff(cs);
    StorageOkIff(cs);
  }

  // ---------------------------------------------------------------------
  // includeTimeStamps

  const TimeStampFields: seq<string> := ["CreatedAt time.Time", "UpdatedAt time.Time", "DeletedAt *time.Time"]

  /** includeTimeStamps: the three bookkeeping fields unless "#skipts" is set. */
  method IncludeTimeStamps(md: MetadataDef) returns (ts: string)
    ensures HasMeta(md, SkipTimeStamps) ==> ts == ""
    ensures !HasMeta(md, SkipTimeStamps) ==> ts == Lines(TimeStampFields)
  {
    var unused, ok := MetaLookup(md, SkipTimeStamps);
    if ok {
      ts := "";
    } else {
      ts := "CreatedAt time.Time\nUpdatedAt time.Time\nDeletedAt *time.Time\n";
      TimeStampText();
    }
  }

  /** The time-stamp text is the three fields, one per line. */
  lemma TimeStampText()
    ensures Lines(TimeStampFields) == "CreatedAt time.Time\nUpdatedAt time.Time\nDeletedAt *time.Time\n"
  {
    var ls := TimeStampFields;
    var a, b, c := "CreatedAt time.Time", "UpdatedAt time.Time", "DeletedAt *time.Time";
    assert ls[1..] == [b, c] && ls[1..][1..] == [c];
    assert Lines([c]) == c + "\n" + Lines([]);
    assert Lines(ls) == a + "\n" + (b + "\n" + (c + "\n"));
    TimeStampLines();
    Assoc("CreatedAt time.Time\n", "UpdatedAt time.Time\n", "DeletedAt *time.Time\n");
    TimeStampJoins();
  }

  /** The three time-stamp lines, each with its newline. */
  lemma TimeStampLines()
    ensures "CreatedAt time.Time" + "\n" == "CreatedAt time.Time\n"
    ensures "UpdatedAt time.Time" + "\n" == "UpdatedAt time.Time\n"
    ensures "DeletedAt *time.Time" + "\n" == "DeletedAt *time.Time\n"
  {
  }

  /** The three time-stamp lines joined. */
  lemma TimeStampJoins()
    ensures "CreatedAt time.Time\n" + "UpdatedAt time.Time\n" == "CreatedAt time.Time\nUpdatedAt time.Time\n"
    ensures "CreatedAt time.Time\nUpdatedAt time.Time\n" + "DeletedAt *time.Time\n"
      == "CreatedAt time.Time\nUpdatedAt time.Time\nDeletedAt *time.Time\n"
  {
  }
}
