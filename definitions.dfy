/** gorma's definition tree and its validator: storage groups hold
    relational stores, stores hold relational models, models hold relational
    fields. Every node has a name and (below the group) a parent link, and
    validation collects one error per missing name or missing parent over the
    whole tree instead of stopping at the first. */
module Definitions {
  import opened GoStrings

  const GroupNameMissing: string := "storage group name not defined"
  const StoreNameMissing: string := "store name not defined"
  const StoreParentMissing: string := "missing storage group parent"
  const ModelNameMissing: string := "model name not defined"
  const ModelParentMissing: string := "missing relational store parent"
  const FieldParentMissing: string := "missing relational model parent"
  const FieldNameMissing: string := "field name not defined"

  /** One entry of goa's ValidationErrors: the definition at fault and the
      message reported for it. */
  datatype ValidationError = ValidationError(definition: object, message: string)

  /** A builder closure (the `dsl func()` argument of the DSL functions),
      known only by its identity. */
  datatype Dsl = Dsl(id: nat)

  /** StorageGroupDefinition. No operation modelled here changes a group
      after it is built, so its fields are constants. */
  class StorageGroup {
    const name: string
    const stores: map<string, RelationalStore>

    constructor (name: string, stores: map<string, RelationalStore>)
      ensures this.name == name && this.stores == stores
    {
      this.name := name;
      this.stores := stores;
    }

    /** StorageGroupDefinition.Validate: its own name error, then the errors
        of every store, merged in the order the stores are visited. */
    method Validate() returns (errs: seq<ValidationError>)
      ensures |errs| >= |GroupOwnErrors(this)| && errs[..|GroupOwnErrors(this)|] == GroupOwnErrors(this)
      ensures multiset(errs) == GroupBag(this)
      ensures errs == [] <==> GroupConsistent(this)
    {
      errs := [];
      if name == "" {
        errs := errs + [ValidationError(this, GroupNameMissing)];
      }
      assert errs == GroupOwnErrors(this);
      var more := ValidateStores(stores);
      GroupAssembled(this, more);
      errs := errs + more;
    }
  }

  /** RelationalStoreDefinition. The RelationalModel DSL adds models to a
      store in place; its name and parent are fixed once built. */
  class RelationalStore {
    const name: string
    const parent: StorageGroup?
    /** RelationalModels; None stands for Go's nil map. */
    var models: Option<map<string, RelationalModel>>

    constructor (name: string, parent: StorageGroup?)
      ensures this.name == name && this.parent == parent && models == None
    {
      this.name := name;
      this.parent := parent;
      models := None;
    }

    /** The models as an iteration sees them: a nil map has none. */
    function Models(): (r: map<string, RelationalModel>)
      reads this
      ensures models.Some? ==> r == models.value
      ensures models.None? ==> r == map[]
    {
      if models.Some? then models.value else map[]
    }

    /** RelationalStoreDefinition.Validate: its name error, its parent
        error, then the errors of every model. */
    method Validate() returns (errs: seq<ValidationError>)
      ensures |errs| >= |StoreOwnErrors(this)| && errs[..|StoreOwnErrors(this)|] == StoreOwnErrors(this)
      ensures multiset(errs) == StoreBag(this)
      ensures errs == [] <==> StoreConsistent(this)
    {
      errs := [];
      if name == "" {
        errs := errs + [ValidationError(this, StoreNameMissing)];
      }
      if parent == null {
        errs := errs + [ValidationError(this, StoreParentMissing)];
      }
      assert errs == StoreOwnErrors(this);
      var more := ValidateModels(Models());
      StoreAssembled(this, more);
      errs := errs + more;
    }
  }

  /** RelationalModelDefinition. No operation modelled here changes a model
      after it is built, so its fields are constants. */
  class RelationalModel {
    const name: string
    const parent: RelationalStore?
    const dsl: Dsl
    const fields: map<string, RelationalField>

    constructor (name: string, parent: RelationalStore?, dsl: Dsl, fields: map<string, RelationalField>)
      ensures this.name == name && this.parent == parent && this.dsl == dsl && this.fields == fields
    {
      this.name := name;
      this.parent := parent;
      this.dsl := dsl;
      this.fields := fields;
    }

    /** RelationalModelDefinition.Validate: its name error, its parent
        error, then the errors of every field. */
    method Validate() returns (errs: seq<ValidationError>)
      ensures |errs| >= |ModelOwnErrors(this)| && errs[..|ModelOwnErrors(this)|] == ModelOwnErrors(this)
      ensures multiset(errs) == ModelBag(this)
      ensures errs == [] <==> ModelConsistent(this)
    {
      errs := [];
      if name == "" {
        errs := errs + [ValidationError(this, ModelNameMissing)];
      }
      if parent == null {
        errs := errs + [ValidationError(this, ModelParentMissing)];
      }
      assert errs == ModelOwnErrors(this);
      var more := ValidateFields(fields);
      ModelAssembled(this, more);
      errs := errs + more;
    }
  }

  /** RelationalFieldDefinition, with the two fields its validation reads. */
  class RelationalField {
    const name: string
    const parent: RelationalModel?

    constructor (name: string, parent: RelationalModel?)
      ensures this.name == name && this.parent == parent
    {
      this.name := name;
      this.parent := parent;
    }

    /** RelationalFieldDefinition.Validate: the parent error, then the name
        error. */
    method Validate() returns (errs: seq<ValidationError>)
      ensures errs == FieldErrors(this)
    {
      errs := [];
      if parent == null {
        errs := errs + [ValidationError(this, FieldParentMissing)];
      }
      if name == "" {
        errs := errs + [ValidationError(this, FieldNameMissing)];
      }
    }
  }

  // ---------------------------------------------------------------------
  // The Iterate* callbacks: each child's errors merged in the order the
  // children are visited. The Iterate* helpers are not part of this model,
  // so that order is left open: any order of the keys may be taken.

  /** IterateStores with the callback of StorageGroupDefinition.Validate. */
  method ValidateStores(stores: map<string, RelationalStore>) returns (errs: seq<ValidationError>)
    ensures multiset(errs) == BagSum(StoreBags(stores))
  {
    errs := [];
    ghost var done: map<string, multiset<ValidationError>> := map[];
    var remaining := stores.Keys;
    while remaining != {}
      invariant remaining <= stores.Keys
      invariant done.Keys == stores.Keys - remaining
      invariant forall k :: k in done ==> done[k] == StoreBag(stores[k])
      invariant multiset(errs) == BagSum(done)
      decreases remaining
    {
      var k :| k in remaining;
      var storeErrs := stores[k].Validate();
      BagSumAdd(done, k, multiset(storeErrs));
      done := done[k := multiset(storeErrs)];
      errs := errs + storeErrs;
      remaining := remaining - {k};
    }
    StoreBagsAre(stores, done);
  }

  /** IterateModels with the callback of RelationalStoreDefinition.Validate. */
  method ValidateModels(models: map<string, RelationalModel>) returns (errs: seq<ValidationError>)
    ensures multiset(errs) == BagSum(ModelBags(models))
  {
    errs := [];
    ghost var done: map<string, multiset<ValidationError>> := map[];
    var remaining := models.Keys;
    while remaining != {}
      invariant remaining <= models.Keys
      invariant done.Keys == models.Keys - remaining
      invariant forall k :: k in done ==> done[k] == ModelBag(models[k])
      invariant multiset(errs) == BagSum(done)
      decreases remaining
    {
      var k :| k in remaining;
      var modelErrs := models[k].Validate();
      BagSumAdd(done, k, multiset(modelErrs));
      done := done[k := multiset(modelErrs)];
      errs := errs + modelErrs;
      remaining := remaining - {k};
    }
    ModelBagsAre(models, done);
  }

  /** IterateFields with the callback of RelationalModelDefinition.Validate. */
  method ValidateFields(fields: map<string, RelationalField>) returns (errs: seq<ValidationError>)
    ensures multiset(errs) == BagSum(FieldBags(fields))
  {
    errs := [];
    ghost var done: map<string, multiset<ValidationError>> := map[];
    var remaining := fields.Keys;
    while remaining != {}
      invariant remaining <= fields.Keys
      invariant done.Keys == fields.Keys - remaining
      invariant forall k :: k in done ==> done[k] == multiset(FieldErrors(fields[k]))
      invariant multiset(errs) == BagSum(done)
      decreases remaining
    {
      var k :| k in remaining;
      var fieldErrs := fields[k].Validate();
      BagSumAdd(done, k, multiset(fieldErrs));
      done := done[k := multiset(fieldErrs)];
      errs := errs + fieldErrs;
      remaining := remaining - {k};
    }
    FieldBagsAre(fields, done);
  }

  // ---------------------------------------------------------------------
  // What each node reports about itself

  /** The errors a field reports: a missing parent, then a missing name;
      nothing for a named, linked field. */
  function FieldErrors(f: RelationalField): (errs: seq<ValidationError>)
    ensures forall e :: e in errs ==> e.definition == f
    ensures ValidationError(f, FieldParentMissing) in errs <==> f.parent == null
    ensures ValidationError(f, FieldNameMissing) in errs <==> f.name == ""
    ensures |errs| == (if f.parent == null then 1 else 0) + (if f.name == "" then 1 else 0)
    ensures f.parent == null && f.name == "" ==> errs[0].message == FieldParentMissing
  {
    (if f.parent == null then [ValidationError(f, FieldParentMissing)] else [])
    + (if f.name == "" then [ValidationError(f, FieldNameMissing)] else [])
  }

  ghost function ModelOwnErrors(m: RelationalModel): seq<ValidationError> {
    (if m.name == "" then [ValidationError(m, ModelNameMissing)] else [])
    + (if m.parent == null then [ValidationError(m, ModelParentMissing)] else [])
  }

  ghost function StoreOwnErrors(s: RelationalStore): seq<ValidationError> {
    (if s.name == "" then [ValidationError(s, StoreNameMissing)] else [])
    + (if s.parent == null then [ValidationError(s, StoreParentMissing)] else [])
  }

  ghost function GroupOwnErrors(g: StorageGroup): seq<ValidationError> {
    if g.name == "" then [ValidationError(g, GroupNameMissing)] else []
  }

  // ---------------------------------------------------------------------
  // The errors of a subtree, as a bag (the visiting order of the Iterate*
  // helpers is not modelled)

  /** The union of the bags of a map. */
  ghost function BagSum<T>(m: map<string, multiset<T>>): multiset<T>
    decreases |m.Keys|
  {
    if m == map[] then multiset{}
    else
      var k :| k in m;
      assert |(m - {k}).Keys| < |m.Keys| by {
        assert (m - {k}).Keys == m.Keys - {k};
      }
      m[k] + BagSum(m - {k})
  }

  ghost function FieldBags(fields: map<string, RelationalField>): map<string, multiset<ValidationError>> {
    map k | k in fields :: multiset(FieldErrors(fields[k]))
  }

  ghost function ModelBag(m: RelationalModel): multiset<ValidationError> {
    multiset(ModelOwnErrors(m)) + BagSum(FieldBags(m.fields))
  }

  ghost function ModelBags(models: map<string, RelationalModel>): map<string, multiset<ValidationError>> {
    map k | k in models :: ModelBag(models[k])
  }

  ghost function StoreBag(s: RelationalStore): multiset<ValidationError>
    reads s
  {
    multiset(StoreOwnErrors(s)) + BagSum(ModelBags(s.Models()))
  }

  ghost function StoreBags(stores: map<string, RelationalStore>): map<string, multiset<ValidationError>>
    reads stores.Values
  {
    map k | k in stores :: StoreBag(stores[k])
  }

  ghost function GroupBag(g: StorageGroup): multiset<ValidationError>
    reads g.stores.Values
  {
    multiset(GroupOwnErrors(g)) + BagSum(StoreBags(g.stores))
  }

  // ---------------------------------------------------------------------
  // A consistent tree: every node named, every node below the group linked

  ghost predicate FieldConsistent(f: RelationalField) {
    f.name != "" && f.parent != null
  }

  ghost predicate ModelConsistent(m: RelationalModel) {
    m.name != "" && m.parent != null && forall k :: k in m.fields ==> FieldConsistent(m.fields[k])
  }

  ghost predicate StoreConsistent(s: RelationalStore)
    reads s
  {
    s.name != "" && s.parent != null && forall k :: k in s.Models() ==> ModelConsistent(s.Models()[k])
  }

  ghost predicate GroupConsistent(g: StorageGroup)
    reads g.stores.Values
  {
    g.name != "" && forall k :: k in g.stores ==> StoreConsistent(g.stores[k])
  }

  // ---------------------------------------------------------------------
  // Lemmas

  /** The sum does not depend on which key is taken first. */
  lemma {:induction false} BagSumRemove<T>(m: map<string, multiset<T>>, k: string)
    requires k in m
    ensures BagSum(m) == m[k] + BagSum(m - {k})
    decreases |m.Keys|
  {
    var j :| j in m && BagSum(m) == m[j] + BagSum(m - {j});
    if j != k {
      assert (m - {j}).Keys == m.Keys - {j};
      assert (m - {k}).Keys == m.Keys - {k};
      BagSumRemove(m - {j}, k);
      BagSumRemove(m - {k}, j);
      assert m - {j} - {k} == m - {k} - {j};
    }
  }

  lemma BagSumAdd<T>(m: map<string, multiset<T>>, k: string, b: multiset<T>)
    requires k !in m
    ensures BagSum(m[k := b]) == BagSum(m) + b
  {
    BagSumRemove(m[k := b], k);
    assert m[k := b] - {k} == m;
  }

  /** The sum is empty exactly when every bag is. */
  lemma {:induction false} BagSumEmpty<T>(m: map<string, multiset<T>>)
    ensures BagSum(m) == multiset{} <==> forall k :: k in m ==> m[k] == multiset{}
    decreases |m.Keys|
  {
    if m != map[] {
      var k :| k in m;
      BagSumRemove(m, k);
      assert (m - {k}).Keys == m.Keys - {k};
      BagSumEmpty(m - {k});
      assert forall j :: j in m - {k} ==> (m - {k})[j] == m[j];
    }
  }

  /** A node's own errors followed by its children's: the own errors come
      first, the bag is the node's, and nothing is reported exactly when the
      subtree is consistent. */
  lemma ModelAssembled(m: RelationalModel, more: seq<ValidationError>)
    requires multiset(more) == BagSum(FieldBags(m.fields))
    ensures var errs := ModelOwnErrors(m) + more;
      && errs[..|ModelOwnErrors(m)|] == ModelOwnErrors(m)
      && multiset(errs) == ModelBag(m)
      && (errs == [] <==> ModelConsistent(m))
  {
    var errs := ModelOwnErrors(m) + more;
    Halves(errs, |ModelOwnErrors(m)|);
    EmptyBag(more);
    FieldBagsEmpty(m.fields);
  }

  lemma StoreAssembled(s: RelationalStore, more: seq<ValidationError>)
    requires multiset(more) == BagSum(ModelBags(s.Models()))
    ensures var errs := StoreOwnErrors(s) + more;
      && errs[..|StoreOwnErrors(s)|] == StoreOwnErrors(s)
      && multiset(errs) == StoreBag(s)
      && (errs == [] <==> StoreConsistent(s))
  {
    var errs := StoreOwnErrors(s) + more;
    Halves(errs, |StoreOwnErrors(s)|);
    EmptyBag(more);
    ModelBagsEmpty(s.Models());
  }

  lemma GroupAssembled(g: StorageGroup, more: seq<ValidationError>)
    requires multiset(more) == BagSum(StoreBags(g.stores))
    ensures var errs := GroupOwnErrors(g) + more;
      && errs[..|GroupOwnErrors(g)|] == GroupOwnErrors(g)
      && multiset(errs) == GroupBag(g)
      && (errs == [] <==> GroupConsistent(g))
  {
    var errs := GroupOwnErrors(g) + more;
    Halves(errs, |GroupOwnErrors(g)|);
    EmptyBag(more);
    StoreBagsEmpty(g.stores);
  }

  lemma Halves<T>(s: seq<T>, n: nat)
    requires n <= |s|
    ensures multiset(s) == multiset(s[..n]) + multiset(s[n..])
    ensures s == [] <==> s[..n] == [] && s[n..] == []
  {
    assert s == s[..n] + s[n..];
  }

  /** The bags gathered by a loop over the children are the children's bags. */
  lemma FieldBagsAre(fields: map<string, RelationalField>, done: map<string, multiset<ValidationError>>)
    requires done.Keys == fields.Keys
    requires forall k :: k in done ==> done[k] == multiset(FieldErrors(fields[k]))
    ensures done == FieldBags(fields)
  {
  }

  lemma ModelBagsAre(models: map<string, RelationalModel>, done: map<string, multiset<ValidationError>>)
    requires done.Keys == models.Keys
    requires forall k :: k in done ==> done[k] == ModelBag(models[k])
    ensures done == ModelBags(models)
  {
  }

  lemma StoreBagsAre(stores: map<string, RelationalStore>, done: map<string, multiset<ValidationError>>)
    requires done.Keys == stores.Keys
    requires forall k :: k in done ==> done[k] == StoreBag(stores[k])
    ensures done == StoreBags(stores)
  {
  }

  lemma EmptyBag<T>(s: seq<T>)
    ensures multiset(s) == multiset{} <==> s == []
  {
    if s != [] {
      assert s[0] in multiset(s);
    }
  }

  lemma FieldBagsEmpty(fields: map<string, RelationalField>)
    ensures BagSum(FieldBags(fields)) == multiset{} <==> forall k :: k in fields ==> FieldConsistent(fields[k])
  {
    BagSumEmpty(FieldBags(fields));
    forall k | k in fields
      ensures FieldBags(fields)[k] == multiset{} <==> FieldConsistent(fields[k])
    {
      EmptyBag(FieldErrors(fields[k]));
    }
  }

  /** A model reports nothing exactly when it and all its fields are named
      and linked. */
  lemma ModelBagEmpty(m: RelationalModel)
    ensures ModelBag(m) == multiset{} <==> ModelConsistent(m)
  {
    EmptyBag(ModelOwnErrors(m));
    FieldBagsEmpty(m.fields);
  }

  lemma ModelBagsEmpty(models: map<string, RelationalModel>)
    ensures BagSum(ModelBags(models)) == multiset{} <==> forall k :: k in models ==> ModelConsistent(models[k])
  {
    BagSumEmpty(ModelBags(models));
    forall k | k in models
      ensures ModelBags(models)[k] == multiset{} <==> ModelConsistent(models[k])
    {
      ModelBagEmpty(models[k]);
    }
  }

  /** A store reports nothing exactly when it and its whole subtree are
      named and linked. */
  lemma StoreBagEmpty(s: RelationalStore)
    ensures StoreBag(s) == multiset{} <==> StoreConsistent(s)
  {
    EmptyBag(StoreOwnErrors(s));
    ModelBagsEmpty(s.Models());
  }

  lemma StoreBagsEmpty(stores: map<string, RelationalStore>)
    ensures BagSum(StoreBags(stores)) == multiset{} <==> forall k :: k in stores ==> StoreConsistent(stores[k])
  {
    BagSumEmpty(StoreBags(stores));
    forall k | k in stores
      ensures StoreBags(stores)[k] == multiset{} <==> StoreConsistent(stores[k])
    {
      StoreBagEmpty(stores[k]);
    }
  }

  // ---------------------------------------------------------------------
  // Validation is aggregate: every faulty node deep in the tree is reported

  lemma BagSumHas<T>(m: map<string, multiset<T>>, k: string, x: T)
    requires k in m && x in m[k]
    ensures x in BagSum(m)
  {
    BagSumRemove(m, k);
  }

  /** An unnamed field of a model is reported by the model's validation. */
  lemma UnnamedFieldReported(m: RelationalModel, k: string)
    requires k in m.fields && m.fields[k].name == ""
    ensures ValidationError(m.fields[k], FieldNameMissing) in ModelBag(m)
  {
    BagSumHas(FieldBags(m.fields), k, ValidationError(m.fields[k], FieldNameMissing));
  }

  /** An unnamed model of a store is reported by the store's validation,
      whatever else is wrong in the store. */
  lemma UnnamedModelReported(s: RelationalStore, k: string)
    requires k in s.Models() && s.Models()[k].name == ""
    ensures ValidationError(s.Models()[k], ModelNameMissing) in StoreBag(s)
  {
    var m := s.Models()[k];
    assert ValidationError(m, ModelNameMissing) in ModelOwnErrors(m);
    BagSumHas(ModelBags(s.Models()), k, ValidationError(m, ModelNameMissing));
  }

  /** An unnamed field two levels down is reported by the group's
      validation. */
  lemma UnnamedFieldReportedByGroup(g: StorageGroup, ks: string, km: string, kf: string)
    requires ks in g.stores && km in g.stores[ks].Models()
    requires kf in g.stores[ks].Models()[km].fields
    requires g.stores[ks].Models()[km].fields[kf].name == ""
    ensures ValidationError(g.stores[ks].Models()[km].fields[kf], FieldNameMissing) in GroupBag(g)
  {
    var s := g.stores[ks];
    var m := s.Models()[km];
    var e := ValidationError(m.fields[kf], FieldNameMissing);
    UnnamedFieldReported(m, kf);
    BagSumHas(ModelBags(s.Models()), km, e);
    BagSumHas(StoreBags(g.stores), ks, e);
  }
}
