/** The evaluation context of gorma's DSL: the definition currently being
    built (none at the top level), the kind tests the DSL functions use to
    check where they are called, and the error a misplaced DSL function
    reports. */
module Runner {
  import opened GoStrings
  import opened Definitions

  /** What goa's dsl.Current() can hold: one of gorma's four definition
      kinds, or a definition of some other DSL (goa's own API, resource,
      media type ... definitions), known only by an identity. */
  datatype Definition =
    | GroupDef(group: StorageGroup)
    | StoreDef(store: RelationalStore)
    | RelModelDef(model: RelationalModel)
    | FieldDef(field: RelationalField)
    | OtherDef(id: nat)

  const InvalidUsePrefix: string := "invalid use of "

  /** The last `.`-separated segment of a function name, as incompatibleDSL
      takes it from strings.Split: the longest suffix without a dot. */
  function LastSegment(s: string): (r: string)
    ensures '.' !in r
    ensures |r| <= |s| && r == s[|s| - |r|..]
    ensures |r| < |s| ==> s[|s| - |r| - 1] == '.'
  {
    var elems := Split(s, '.');
    var n := |elems|;
    JoinSplit(s, '.');
    if n == 1 then
      elems[0]
    else
      assert elems == elems[..n - 1] + [elems[n - 1]];
      JoinSnoc(elems[..n - 1], elems[n - 1], ".");
      elems[n - 1]
  }

  /** A qualified name's last segment is what follows its last dot. */
  lemma {:induction false} LastSegmentOfQualified(pkg: string, name: string)
    requires '.' !in name
    ensures LastSegment(pkg + "." + name) == name
  {
    var s := pkg + "." + name;
    var r := LastSegment(s);
    assert s[|s| - |name| - 1] == '.';
    assert name == s[|s| - |name|..];
  }

  /** The message incompatibleDSL reports for the DSL function `dslFunc`. */
  function InvalidUse(dslFunc: string): (msg: string)
    ensures |msg| >= |InvalidUsePrefix| && msg[..|InvalidUsePrefix|] == InvalidUsePrefix
    ensures '.' !in msg[|InvalidUsePrefix|..]
  {
    InvalidUsePrefix + LastSegment(dslFunc)
  }

  /** The DSL runner's global state: the current definition (None when the
      DSL evaluated is a root DSL) and the errors reported so far. */
  class DslContext {
    var current: Option<Definition>
    var errors: seq<string>

    constructor ()
      ensures current == None && errors == []
    {
      current := None;
      errors := [];
    }

    /** incompatibleDSL: reports that the DSL function named `dslFunc` (a
        package-qualified function name) was used in the wrong place. */
    method IncompatibleDSL(dslFunc: string)
      modifies this
      ensures current == old(current)
      ensures errors == old(errors) + [InvalidUse(dslFunc)]
    {
      var elems := Split(dslFunc, '.');
      errors := errors + [InvalidUsePrefix + elems[|elems| - 1]];
    }

    /** topLevelDefinition: whether no definition is being built; when
        `failIfNotTopLevel` is set and one is, the caller is reported. */
    method TopLevelDefinition(failIfNotTopLevel: bool, caller: string) returns (top: bool)
      modifies this
      ensures top <==> current.None?
      ensures current == old(current)
      ensures errors == old(errors) + (if failIfNotTopLevel && !top then [InvalidUse(caller)] else [])
    {
      top := current == None;
      if failIfNotTopLevel && !top {
        IncompatibleDSL(caller);
      }
    }

    /** storageGroupDefinition: the current definition when it is a storage
        group, else null; reports the caller when it is not and `failIfNotSD`
        is set. */
    method StorageGroupDefinition(failIfNotSD: bool, caller: string) returns (a: StorageGroup?, ok: bool)
      modifies this
      ensures ok <==> current.Some? && current.value.GroupDef?
      ensures ok ==> a == current.value.group
      ensures !ok ==> a == null
      ensures current == old(current)
      ensures errors == old(errors) + (if !ok && failIfNotSD then [InvalidUse(caller)] else [])
    {
      a, ok := null, false;
      if current.Some? && current.value.GroupDef? {
        a, ok := current.value.group, true;
      }
      if !ok && failIfNotSD {
        IncompatibleDSL(caller);
      }
    }

    /** relationalStoreDefinition: the current definition when it is a
        relational store, else null. */
    method RelationalStoreDefinition(failIfNotSD: bool, caller: string) returns (a: RelationalStore?, ok: bool)
      modifies this
      ensures ok <==> current.Some? && current.value.StoreDef?
      ensures ok ==> a == current.value.store
      ensures !ok ==> a == null
      ensures current == old(current)
      ensures errors == old(errors) + (if !ok && failIfNotSD then [InvalidUse(caller)] else [])
    {
      a, ok := null, false;
      if current.Some? && current.value.StoreDef? {
        a, ok := current.value.store, true;
      }
      if !ok && failIfNotSD {
        IncompatibleDSL(caller);
      }
    }

    /** relationalModelDefinition: the current definition when it is a
        relational model, else null. */
    method RelationalModelDefinition(failIfNotSD: bool, caller: string) returns (a: RelationalModel?, ok: bool)
      modifies this
      ensures ok <==> current.Some? && current.value.RelModelDef?
      ensures ok ==> a == current.value.model
      ensures !ok ==> a == null
      ensures current == old(current)
      ensures errors == old(errors) + (if !ok && failIfNotSD then [InvalidUse(caller)] else [])
    {
      a, ok := null, false;
      if current.Some? && current.value.RelModelDef? {
        a, ok := current.value.model, true;
      }
      if !ok && failIfNotSD {
        IncompatibleDSL(caller);
      }
    }

    /** relationalFieldDefinition: the current definition when it is a
        relational field, else null. */
    method RelationalFieldDefinition(failIfNotSD: bool, caller: string) returns (a: RelationalField?, ok: bool)
      modifies this
      ensures ok <==> current.Some? && current.value.FieldDef?
      ensures ok ==> a == current.value.field
      ensures !ok ==> a == null
      ensures current == old(current)
      ensures errors == old(errors) + (if !ok && failIfNotSD then [InvalidUse(caller)] else [])
    {
      a, ok := null, false;
      if current.Some? && current.value.FieldDef? {
        a, ok := current.value.field, true;
      }
      if !ok && failIfNotSD {
        IncompatibleDSL(caller);
      }
    }
  }
}
