/** Primary-key normalisation: before a model struct is generated, the
    object's id field is renamed to the lower-case key "id" (or created as an
    integer), and its metadata receives a gorm tag marking it as the primary
    key unless the user supplied one. */
module PrimaryKey {
  import opened Metadata
  import opened Design

  const GormTag: string := "#gormtag"
  const GormPkTag: string := "#gormpktag"
  const DefaultPkTag: string := "primary_key"

  /** The spellings of the id field that setupIDAttribute recognises. */
  predicate IsIdVariant(n: string) {
    n == "ID" || n == "Id" || n == "id"
  }

  /** `m` with the entry under `from` moved to `to` (nothing when they are
      the same key). */
  function MoveKey<V>(m: map<string, V>, from: string, to: string): (r: map<string, V>)
    requires from in m
    ensures to in r && r[to] == m[from]
    ensures from != to ==> from !in r
    ensures forall k :: k != from && k != to ==> (k in r <==> k in m)
    ensures forall k :: k in r && k != to ==> r[k] == m[k]
  {
    if from == to then m else m[to := m[from]] - {from}
  }

  /** The id attribute's metadata after tagging: unchanged when it already
      names a gorm tag (in any spelling), else with the default added under
      the exact namespaced key. */
  function Tagged(md: MetadataDef, pkTag: string): (r: MetadataDef)
    ensures HasMeta(r, GormTag)
    ensures HasMeta(md, GormTag) ==> r == md
    ensures !HasMeta(md, GormTag) ==> forall v :: IsMetaValue(r, GormTag, v) <==> v == pkTag
    ensures forall k :: k in md ==> k in r && (!KeyMatches(k, GormTag) ==> r[k] == md[k])
  {
    if HasMeta(md, GormTag) then md
    else
      var r := md[MetaNamespace + GormTag := pkTag];
      AddedTagIsFound(md, GormTag, pkTag, pkTag);
      assert forall v :: IsMetaValue(r, GormTag, v) <==> v == pkTag by {
        forall v
          ensures IsMetaValue(r, GormTag, v) <==> v == pkTag
        {
          AddedTagIsFound(md, GormTag, pkTag, v);
        }
      }
      r
  }

  /** Tagging twice is tagging once: a model generated again keeps its tag. */
  lemma TaggedIdempotent(md: MetadataDef, pkTag: string, other: string)
    ensures Tagged(Tagged(md, pkTag), other) == Tagged(md, pkTag)
  {
  }

  /** The primary-key tag chosen for a model: its "#gormpktag", else
      "primary_key". */
  ghost predicate PkTagOf(resMeta: MetadataDef, gorm: string) {
    && (HasMeta(resMeta, GormPkTag) ==> IsMetaValue(resMeta, GormPkTag, gorm))
    && (!HasMeta(resMeta, GormPkTag) ==> gorm == DefaultPkTag)
  }

  /** What setupIDAttribute does to `obj`, whose fields were `before`: the
      key "id" exists and `pkTag` is the type's key tag; a spelling
      `foundName` of the id found in `before` has been moved to "id" with its
      attribute's metadata tagged, or, with none, a fresh integer attribute
      carrying only the tag has been added; the metadata of every other
      attribute of `before` is as it was. */
  twostate predicate KeyNormalised(obj: Object, before: map<string, Attribute>, resMeta: MetadataDef,
                                   foundName: string, pkTag: string)
    reads obj, obj.fields.Values, before.Values
  {
    && "id" in obj.fields
    && PkTagOf(resMeta, pkTag)
    && (foundName == "" <==> forall n :: n in before ==> !IsIdVariant(n))
    && (foundName != "" ==>
          && foundName in before && IsIdVariant(foundName)
          && obj.fields == MoveKey(before, foundName, "id")
          && obj.fields["id"].metadata == Tagged(old(before[foundName].metadata), pkTag))
    && (foundName == "" ==>
          && obj.fields == before["id" := obj.fields["id"]]
          && fresh(obj.fields["id"])
          && var id := obj.fields["id"];
             id.kind == IntegerKind && id.validations == [] && id.description == "" &&
             id.metadata == map[MetaNamespace + GormTag := pkTag])
    && forall a :: a in before.Values && a != obj.fields["id"] ==> a.metadata == old(a.metadata)
  }

  /** setupIDAttribute. The scan over the object's keys runs in Go's
      unspecified map order and keeps the last id spelling it meets;
      `foundName` reports that spelling ("" when there is none) and `pkTag`
      the tag chosen for the key. */
  method SetupIDAttribute(obj: Object, resMeta: MetadataDef) returns (ghost foundName: string, ghost pkTag: string)
    modifies obj, obj.fields.Values
    ensures KeyNormalised(obj, old(obj.fields), resMeta, foundName, pkTag)
  {
    foundName := NormalizeIdKey(obj);
    pkTag := TagPrimaryKey(obj.fields["id"], resMeta);
  }

  /** The key half of setupIDAttribute: the id spelling found is moved to
      "id", or a new integer attribute with empty metadata is added there. */
  method NormalizeIdKey(obj: Object) returns (idName: string)
    modifies obj
    ensures "id" in obj.fields
    ensures idName == "" <==> forall n :: n in old(obj.fields) ==> !IsIdVariant(n)
    ensures idName != "" ==> idName in old(obj.fields) && IsIdVariant(idName)
    ensures idName != "" ==> obj.fields == MoveKey(old(obj.fields), idName, "id")
    ensures idName == "" ==> obj.fields == old(obj.fields)["id" := obj.fields["id"]]
    ensures idName == "" ==> fresh(obj.fields["id"])
    ensures idName == "" ==>
      var id := obj.fields["id"];
      id.kind == IntegerKind && id.validations == [] && id.description == "" && id.metadata == map[]
  {
    idName := FindIdName(obj.fields);
    if idName != "" {
      // any other spelling is moved to the key "id"
      if idName != "id" {
        obj.fields := obj.fields["id" := obj.fields[idName]];
        obj.fields := obj.fields - {idName};
      }
    } else {
      var id := new Attribute(IntegerKind, [], "", map[]);
      obj.fields := obj.fields["id" := id];
    }
  }

  /** The scan of setupIDAttribute: the last id spelling met in Go's
      unspecified map order, or "" when the object has none. */
  method FindIdName(fields: map<string, Attribute>) returns (idName: string)
    ensures idName == "" <==> forall n :: n in fields ==> !IsIdVariant(n)
    ensures idName != "" ==> idName in fields && IsIdVariant(idName)
  {
    idName := "";
    var foundID := false;
    var remaining := fields.Keys;
    while remaining != {}
      invariant remaining <= fields.Keys
      invariant foundID <==> idName != ""
      invariant foundID ==> idName in fields && IsIdVariant(idName)
      invariant !foundID ==> forall n :: n in fields && n !in remaining ==> !IsIdVariant(n)
      decreases remaining
    {
      var n :| n in remaining;
      if n == "ID" || n == "Id" || n == "id" {
        idName := n;
        foundID := true;
      }
      remaining := remaining - {n};
    }
  }

  /** The tagging half of setupIDAttribute: the key tag is the type's
      "#gormpktag" or "primary_key", and the id attribute receives it unless
      it already names a gorm tag. */
  method TagPrimaryKey(idAttr: Attribute, resMeta: MetadataDef) returns (ghost pkTag: string)
    modifies idAttr
    ensures PkTagOf(resMeta, pkTag)
    ensures idAttr.metadata == Tagged(old(idAttr.metadata), pkTag)
  {
    var gorm;
    var val, ok := MetaLookup(resMeta, GormPkTag);
    if ok {
      gorm := val;
    } else {
      gorm := DefaultPkTag;
    }

    // a gorm tag the attribute already carries is kept
    var unused, hasTag := MetaLookup(idAttr.metadata, GormTag);
    if !hasTag {
      idAttr.metadata := idAttr.metadata[MetaNamespace + GormTag := gorm];
    }
    pkTag := gorm;
  }

  /** Moving "ID" to "id" removes the upper-case key and keeps every other
      field. */
  lemma MoveKeyKeys<V>(m: map<string, V>, from: string)
    requires from in m && from != "id"
    ensures MoveKey(m, from, "id").Keys == m.Keys - {from} + {"id"}
  {
  }
}
