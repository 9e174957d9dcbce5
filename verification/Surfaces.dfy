/** The per-tenant write surface: boot schema merged with the deployed one (deployed_surface.go). */
module Surfaces {
  import opened Text
  import opened Hosts

  /** `rest` stands for everything that is compiled at boot: hooks, relations, events, indexes. */
  datatype Resource = Resource(fields: map<string, string>, importDecl: Option<string>, rest: string)

  type Schema = map<string, Resource>

  /** Resource name to merged resource; a missing name means the boot resource governs. */
  type Surface = map<string, Resource>

  function Merge(boot: Resource, dep: Resource): Resource {
    boot.(fields := boot.fields + dep.fields, importDecl := dep.importDecl)
  }

  /** What a load compiles from the deployed schema it got; nothing when it got none. */
  function MergeAll(boot: Schema, dep: Option<Schema>): Surface {
    if dep.None? then map[]
    else map name | name in boot && name in dep.value :: Merge(boot[name], dep.value[name])
  }

  /** Every boot field stays writable, deployed definitions win, only fields and import can differ. */
  ghost predicate Extends(boot: Resource, dep: Resource, r: Resource) {
    && boot.fields.Keys <= r.fields.Keys
    && (forall k :: k in r.fields <==> k in boot.fields || k in dep.fields)
    && (forall k :: k in dep.fields ==> k in r.fields && r.fields[k] == dep.fields[k])
    && (forall k :: k in boot.fields && k !in dep.fields ==> k in r.fields && r.fields[k] == boot.fields[k])
    && r.importDecl == dep.importDecl
    && r.rest == boot.rest
  }

  /**
   * The surface of a deployed schema holds exactly the resources that both the boot schema and the
   * deployed one have, each the boot resource extended by the deployed one.
   */
  ghost predicate IsSurface(boot: Schema, dep: Option<Schema>, out: Surface) {
    forall name ::
      && (name in out <==> name in boot && dep.Some? && name in dep.value)
      && (name in out ==> Extends(boot[name], dep.value[name], out[name]))
  }

  lemma ExtendsIff(boot: Resource, dep: Resource, r: Resource)
    ensures Extends(boot, dep, r) <==> r == Merge(boot, dep)
  {
    if Extends(boot, dep, r) {
      assert r.fields == boot.fields + dep.fields;
    }
  }

  lemma SurfaceIff(boot: Schema, dep: Option<Schema>, out: Surface)
    ensures IsSurface(boot, dep, out) <==> out == MergeAll(boot, dep)
  {
    if IsSurface(boot, dep, out) {
      forall name | name in out ensures out[name] == MergeAll(boot, dep)[name] {
        ExtendsIff(boot[name], dep.value[name], out[name]);
      }
      assert out.Keys == MergeAll(boot, dep).Keys;
    }
  }

  /** `mergeWritableFields`. */
  method MergeWritableFields(boot: Resource, dep: Resource) returns (r: Resource)
    ensures Extends(boot, dep, r)
    ensures r == Merge(boot, dep)
  {
    var copied := Overlay(map[], boot.fields);
    var fields := Overlay(copied, dep.fields);
    r := boot.(fields := fields, importDecl := dep.importDecl);
  }

  /** The loop of `load` over the boot resources. */
  method Compile(boot: Schema, dep: Schema) returns (out: Surface)
    ensures out == MergeAll(boot, Some(dep))
    ensures IsSurface(boot, Some(dep), out)
  {
    out := map[];
    var todo := boot.Keys;
    while todo != {}
      invariant todo <= boot.Keys
      invariant forall n :: n in out <==> n in boot && n in dep && n !in todo
      invariant forall n :: n in out ==> out[n] == Merge(boot[n], dep[n])
      decreases |todo|
    {
      var name :| name in todo;
      todo := todo - {name};
      if name in dep {
        var merged := MergeWritableFields(boot[name], dep[name]);
        out := out[name := merged];
      }
    }
  }

  class DeployedSurfaces {
    const boot: Schema
    var byTenant: map<string, Surface>
    var schemas: map<string, Schema>

    constructor (boot: Schema, schemas: map<string, Schema>)
      ensures this.boot == boot && byTenant == map[] && this.schemas == schemas
    {
      this.boot, byTenant, this.schemas := boot, map[], schemas;
    }

    /**
     * `deployedSchema`: the cached schema, else the tenant's row. `row` is the row as it reads now;
     * None for an error, a missing row, or a schema that does not load and validate.
     */
    method DeployedSchema(tenant: string, row: Option<Schema>) returns (s: Option<Schema>)
      modifies this`schemas
      ensures s == if tenant in old(schemas) then Some(old(schemas)[tenant]) else row
      ensures schemas == if s.Some? then old(schemas)[tenant := s.value] else old(schemas)
    {
      if tenant in schemas {
        assert schemas == schemas[tenant := schemas[tenant]];
        return Some(schemas[tenant]);
      }
      if row.Some? {
        schemas := schemas[tenant := row.value];
      }
      return row;
    }

    /** `load`: caches the merge, or the empty surface when there is no schema to trust. */
    method Load(tenant: string, row: Option<Schema>) returns (out: Surface)
      modifies this
      ensures out == MergeAll(boot, if tenant in old(schemas) then Some(old(schemas)[tenant]) else row)
      ensures IsSurface(boot, if tenant in old(schemas) then Some(old(schemas)[tenant]) else row, out)
      ensures byTenant == old(byTenant)[tenant := out]
      ensures forall t :: t != tenant ==>
                (t in schemas <==> t in old(schemas)) && (t in schemas ==> schemas[t] == old(schemas)[t])
      ensures tenant in old(schemas) ==> schemas == old(schemas)
    {
      var dep := DeployedSchema(tenant, row);
      out := map[];
      if dep.Some? {
        out := Compile(boot, dep.value);
      }
      byTenant := byTenant[tenant := out];
    }

    /** `WriteSurfaceFor`: None when the boot resource governs. */
    method WriteSurfaceFor(tenant: string, resource: string, row: Option<Schema>) returns (r: Option<Resource>)
      modifies this
      ensures tenant in byTenant
      ensures r == if resource in byTenant[tenant] then Some(byTenant[tenant][resource]) else None
      ensures tenant in old(byTenant) ==> byTenant == old(byTenant) && schemas == old(schemas)
      ensures tenant !in old(byTenant) ==>
                byTenant == old(byTenant)[tenant :=
                    MergeAll(boot, if tenant in old(schemas) then Some(old(schemas)[tenant]) else row)]
      ensures tenant !in old(byTenant) ==>
                var dep := if tenant in old(schemas) then Some(old(schemas)[tenant]) else row;
                && (r.Some? <==> resource in boot && dep.Some? && resource in dep.value)
                && (r.Some? ==> Extends(boot[resource], dep.value[resource], r.value))
      ensures forall t :: t != tenant ==>
                (t in byTenant <==> t in old(byTenant)) && (t in byTenant ==> byTenant[t] == old(byTenant)[t])
    {
      var out: Surface;
      if tenant in byTenant {
        out := byTenant[tenant];
      } else {
        out := Load(tenant, row);
      }
      r := if resource in out then Some(out[resource]) else None;
    }

    method Invalidate(tenant: string)
      modifies this`byTenant
      ensures byTenant == old(byTenant) - {tenant}
    {
      byTenant := byTenant - {tenant};
    }

    /** `deployedOnlyResources`: what the tenant deployed and this process was not booted with. */
    method DeployedOnlyResources(tenant: string, row: Option<Schema>) returns (names: set<string>)
      modifies this`schemas
      ensures var dep := if tenant in old(schemas) then Some(old(schemas)[tenant]) else row;
              forall n :: n in names <==> dep.Some? && n in dep.value && n !in boot
      ensures forall t :: t != tenant ==>
                (t in schemas <==> t in old(schemas)) && (t in schemas ==> schemas[t] == old(schemas)[t])
    {
      var dep := DeployedSchema(tenant, row);
      names := {};
      if dep.Some? {
        var todo := dep.value.Keys;
        while todo != {}
          invariant todo <= dep.value.Keys
          invariant forall n :: n in names <==> n in dep.value && n !in todo && n !in boot
          decreases |todo|
        {
          var name :| name in todo;
          todo := todo - {name};
          if name !in boot {
            names := names + {name};
          }
        }
      }
    }
  }
}
