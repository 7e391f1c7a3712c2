/** The RelationalModel DSL function: declared inside a relational store, it
    registers a model definition under its name in the store's model map,
    creating the map on first use and keeping an earlier declaration of the
    same name. */
module ModelDsl {
  import opened GoStrings
  import Definitions
  import Runner

  /** The map update as the statements are written: the definition built for
      a new name is bound to a variable of the inner block that is never
      read, so the value stored under the name is the lookup result, which is
      nil for a name not declared before. */
  method StoreAsWritten(models: Option<map<string, Definitions.RelationalModel?>>, name: string, dsl: Definitions.Dsl)
    returns (updated: map<string, Definitions.RelationalModel?>)
    ensures name in updated
    ensures models.Some? && name in models.value ==> updated == models.value
    ensures (models.None? || name !in models.value) ==> updated[name] == null
    ensures models.Some? ==> forall k :: k != name ==> (k in updated <==> k in models.value)
    ensures models.Some? ==> forall k :: k != name && k in updated ==> updated[k] == models.value[k]
    ensures models.None? ==> updated.Keys == {name}
  {
    var m: map<string, Definitions.RelationalModel?>;
    if models.None? {
      m := map[];
    } else {
      m := models.value;
    }
    var store: Definitions.RelationalModel? := null;
    var ok := name in m;
    if ok {
      store := m[name];
    }
    if !ok {
      var unused := new Definitions.RelationalModel(name, null, dsl, map[]);
    }
    updated := m[name := store];
  }

  /** RelationalModel, storing the definition it builds for a new name. Out
      of store context the only effect is the error reported for the
      caller. */
  method RelationalModel(ctx: Runner.DslContext, name: string, dsl: Definitions.Dsl, caller: string)
    modifies ctx, if ctx.current.Some? && ctx.current.value.StoreDef? then {ctx.current.value.store} else {}
    ensures ctx.current == old(ctx.current)
    ensures !(ctx.current.Some? && ctx.current.value.StoreDef?) ==>
      ctx.errors == old(ctx.errors) + [Runner.InvalidUse(caller)]
    ensures ctx.current.Some? && ctx.current.value.StoreDef? ==>
      var s := ctx.current.value.store;
      && ctx.errors == old(ctx.errors)
      && s.models.Some?
      && name in s.models.value
      && (name in old(s.Models()) ==> s.models.value == old(s.Models()))
      && (name !in old(s.Models()) ==> s.models.value == old(s.Models())[name := s.models.value[name]])
    ensures ctx.current.Some? && ctx.current.value.StoreDef? && name !in old(ctx.current.value.store.Models()) ==>
      var m := ctx.current.value.store.models.value[name];
      && fresh(m)
      && m.name == name && m.dsl == dsl && m.parent == null && m.fields == map[]
  {
    var s, ok := ctx.RelationalStoreDefinition(true, caller);
    if ok {
      if s.models.None? {
        s.models := Some(map[]);
      }
      var models := s.models.value;
      var store: Definitions.RelationalModel;
      if name in models {
        store := models[name];
      } else {
        store := new Definitions.RelationalModel(name, null, dsl, map[]);
      }
      s.models := Some(models[name := store]);
    }
  }

  /** A model registered by the DSL has no parent link, so validating it
      reports the missing relational store parent. */
  lemma DeclaredModelIsReported(name: string, dsl: Definitions.Dsl, m: Definitions.RelationalModel)
    requires m.name == name && m.dsl == dsl && m.parent == null && m.fields == map[]
    ensures !Definitions.ModelConsistent(m)
    ensures Definitions.ValidationError(m, Definitions.ModelParentMissing) in multiset(Definitions.ModelOwnErrors(m))
  {
  }
}
