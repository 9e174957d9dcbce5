/**
 * The boot schema file, its backup and the self-restart marker (restart.go), and the load with
 * rollback that `New` runs (app.go).
 *
 * `valid` stands for the schema gate: structural load and semantic validation. A missing file and
 * an unreadable one are both `None`.
 */
module BootSchema {
  import opened Hosts

  datatype Files = Files(schema: Option<string>, backup: Option<string>, marker: bool)

  predicate Loads(valid: string -> bool, c: Option<string>) {
    c.Some? && valid(c.value)
  }

  /** Outcomes of the steps of a persist; `markerTorn` says a failed marker write left the file. */
  datatype PersistIo = PersistIo(
    canReplace: bool, backupOk: bool, markerOk: bool, markerTorn: bool, schemaOk: bool, removeOk: bool)

  datatype PersistResult = Persisted | Rejected | Failed

  /** Outcomes of a boot: the restore, the marker removal after it, the final marker removal. */
  datatype BootIo = BootIo(restoreOk: bool, removeOk: bool, clearOk: bool)

  datatype BootResult = BootResult(files: Files, booted: Option<string>)

  /** The files and the schema a boot ends with. */
  function Boot(valid: string -> bool, f: Files, io: BootIo): BootResult {
    if Loads(valid, f.schema) then BootResult(f.(marker := f.marker && !io.clearOk), f.schema)
    else if !f.marker || f.backup.None? || !io.restoreOk then BootResult(f, None)
    else
      var marker := !io.removeOk;
      if valid(f.backup.value) then BootResult(f.(schema := f.backup, marker := marker && !io.clearOk), f.backup)
      else BootResult(f.(schema := f.backup, marker := marker), None)
  }

  class BootFiles {
    var schema: Option<string>
    var backup: Option<string>
    var marker: bool

    function State(): Files
      reads this
    {
      Files(schema, backup, marker)
    }

    constructor (f: Files)
      ensures State() == f
    {
      schema, backup, marker := f.schema, f.backup, f.marker;
    }

    /**
     * `persistBootSchemaFile`: a rejected schema writes nothing, the schema file only ever goes
     * from the old content to the new, and a persist that did not happen leaves no marker.
     */
    method Persist(valid: string -> bool, raw: string, io: PersistIo) returns (r: PersistResult)
      modifies this
      ensures r.Rejected? <==> !valid(raw)
      ensures r.Rejected? ==> State() == old(State())
      ensures r.Persisted? <==>
                valid(raw) && old(schema).Some? && io.canReplace && io.backupOk && io.markerOk && io.schemaOk
      ensures r.Persisted? ==> State() == Files(Some(raw), old(schema), true)
      ensures !r.Persisted? ==> schema == old(schema)
      ensures backup == old(backup) || backup == old(schema)
      ensures marker && !old(marker) ==> backup == old(schema)
      ensures r.Failed? && backup == old(schema) && io.canReplace && io.backupOk && io.markerOk && old(schema).Some? ==>
                marker == !io.removeOk
      ensures r.Failed? && (old(schema).None? || !io.canReplace || !io.backupOk) ==> State() == old(State())
      ensures Loads(valid, old(schema)) && (old(marker) ==> Loads(valid, old(backup))) ==>
                Loads(valid, schema) && (marker ==> Loads(valid, backup))
    {
      if !valid(raw) {
        return Rejected;
      }
      if schema.None? {
        return Failed;
      }
      var cur := schema;
      if !io.canReplace || !io.backupOk {
        return Failed;
      }
      backup := cur;
      if !io.markerOk {
        marker := marker || io.markerTorn;
        return Failed;
      }
      marker := true;
      if !io.schemaOk {
        marker := marker && !io.removeOk;
        return Failed;
      }
      schema := Some(raw);
      return Persisted;
    }

    /** `recoverBootSchema`: restores the backup exactly when marker and backup exist and the write succeeds. */
    method Recover(io: BootIo) returns (restored: bool)
      modifies this
      ensures restored <==> old(marker) && old(backup).Some? && io.restoreOk
      ensures restored ==> State() == Files(old(backup), old(backup), !io.removeOk)
      ensures !restored ==> State() == old(State())
    {
      if !marker || backup.None? || !io.restoreOk {
        return false;
      }
      schema := backup;
      marker := marker && !io.removeOk;
      return true;
    }

    /**
     * The load in `New`. An unloadable schema boots if and only if the marker exists, the backup
     * loads and the restore succeeds, and then it boots the backup; otherwise the boot fails loud.
     * A finished boot leaves no marker when one of its removals succeeds.
     */
    method Start(valid: string -> bool, io: BootIo) returns (booted: Option<string>)
      modifies this
      ensures BootResult(State(), booted) == Boot(valid, old(State()), io)
      ensures booted.Some? <==>
                || Loads(valid, old(schema))
                || (old(marker) && Loads(valid, old(backup)) && io.restoreOk)
      ensures booted.Some? ==>
                booted == schema == (if Loads(valid, old(schema)) then old(schema) else old(backup))
      ensures booted.Some? && io.clearOk ==> !marker
      ensures Loads(valid, old(schema)) ==> State() == old(State()).(marker := old(marker) && !io.clearOk)
      ensures !Loads(valid, old(schema)) ==>
                if !old(marker) || old(backup).None? || !io.restoreOk then State() == old(State())
                else State() == Files(old(backup), old(backup), !io.removeOk && (booted.Some? ==> !io.clearOk))
      ensures booted.None? && schema != old(schema) ==> schema == old(backup) && !Loads(valid, old(backup))
    {
      if !Loads(valid, schema) {
        var restored := Recover(io);
        if !restored || !Loads(valid, schema) {
          return None;
        }
      }
      booted := schema;
      marker := marker && !io.clearOk;
    }
  }
}
