/**
 * The server's partial update of a stored design
 * (`server/src/handlers/update_api_design.ts`, `updateApiDesign`). The
 * `api_designs` table is a map from id to record; the clock reading that
 * `new Date()` takes is a parameter, in milliseconds.
 */
module DesignStore {
  import opened Wrappers
  import opened Serialization

  /** A row of `api_designs`. */
  datatype DesignRecord = DesignRecord(id: string, name: string, designData: DesignDocument, createdAt: int, updatedAt: int)

  /** `UpdateApiDesignInput`: the id, and each column that may be supplied. */
  datatype UpdateInput = UpdateInput(id: string, name: Option<string>, designData: Option<DesignDocument>)

  /** The `updateData` object handed to `.set(...)`: only the supplied columns, and always the timestamp. */
  datatype UpdateSet = UpdateSet(name: Option<string>, designData: Option<DesignDocument>, updatedAt: int)

  /** The `SET` of an update applied to one row: assigned columns change, the others keep their value. */
  function ApplySet(row: DesignRecord, s: UpdateSet): (r: DesignRecord)
    ensures r.id == row.id && r.createdAt == row.createdAt && r.updatedAt == s.updatedAt
    ensures r.name == (if s.name.Some? then s.name.value else row.name)
    ensures r.designData == (if s.designData.Some? then s.designData.value else row.designData)
  {
    row.(name := s.name.GetOr(row.name), designData := s.designData.GetOr(row.designData), updatedAt := s.updatedAt)
  }

  /**
   * The row an update with `input` at time `now` produces from `row`: each
   * supplied column takes its new value, every other column is kept, and the
   * update time is always `now`.
   */
  function UpdatedRecord(row: DesignRecord, input: UpdateInput, now: int): (r: DesignRecord)
    ensures r.id == row.id && r.createdAt == row.createdAt && r.updatedAt == now
    ensures input.name.Some? ==> r.name == input.name.value
    ensures input.name.None? ==> r.name == row.name
    ensures input.designData.Some? ==> r.designData == input.designData.value
    ensures input.designData.None? ==> r.designData == row.designData
  {
    ApplySet(row, UpdateSet(input.name, input.designData, now))
  }

  /** Supplying only a name leaves the design data as it was. */
  lemma NameOnlyKeepsData(row: DesignRecord, id: string, name: string, now: int)
    ensures var r := UpdatedRecord(row, UpdateInput(id, Some(name), None), now);
            r.name == name && r.designData == row.designData
  {
  }

  /** Supplying only design data leaves the name as it was. */
  lemma DataOnlyKeepsName(row: DesignRecord, id: string, d: DesignDocument, now: int)
    ensures var r := UpdatedRecord(row, UpdateInput(id, None, Some(d)), now);
            r.designData == d && r.name == row.name
  {
  }

  /** With a clock that has moved on since the row was last written, every update advances `updated_at`, whatever was supplied. */
  lemma UpdatedAtAdvances(row: DesignRecord, input: UpdateInput, now: int)
    requires now > row.updatedAt
    ensures UpdatedRecord(row, input, now).updatedAt > row.updatedAt
  {
  }

  /** Repeating an update at the same time changes nothing further. */
  lemma UpdateIdempotent(row: DesignRecord, input: UpdateInput, now: int)
    ensures UpdatedRecord(UpdatedRecord(row, input, now), input, now) == UpdatedRecord(row, input, now)
  {
  }

  /** A name-only update followed by a data-only update equals one update supplying both. */
  lemma SeparateUpdatesCompose(row: DesignRecord, id: string, name: string, d: DesignDocument, t1: int, t2: int)
    ensures UpdatedRecord(UpdatedRecord(row, UpdateInput(id, Some(name), None), t1), UpdateInput(id, None, Some(d)), t2)
         == UpdatedRecord(row, UpdateInput(id, Some(name), Some(d)), t2)
  {
  }

  /** The `api_designs` table. */
  class DesignTable {
    var rows: map<string, DesignRecord>

    /** Every row is stored under its own primary key. */
    ghost predicate Valid()
      reads this
    {
      forall id :: id in rows ==> rows[id].id == id
    }

    constructor ()
      ensures rows == map[] && Valid()
    {
      rows := map[];
    }

    /**
     * `updateApiDesign(input)`: build the update object column by column,
     * update the row whose id matches and return it, or return `null` when no
     * row matches.
     */
    method UpdateApiDesign(input: UpdateInput, now: int) returns (result: Option<DesignRecord>)
      requires Valid()
      modifies this
      ensures Valid()
      ensures input.id !in old(rows) ==> result == None && rows == old(rows)
      ensures input.id in old(rows) ==>
        && result == Some(UpdatedRecord(old(rows)[input.id], input, now))
        && rows == old(rows)[input.id := result.value]
      ensures rows.Keys == old(rows).Keys
      ensures forall id :: id in old(rows) && id != input.id ==> rows[id] == old(rows)[id]
    {
      var updateData := UpdateSet(None, None, now);
      if input.name.Some? {
        updateData := updateData.(name := input.name);
      }
      if input.designData.Some? {
        updateData := updateData.(designData := input.designData);
      }
      if input.id in rows {
        var updated := ApplySet(rows[input.id], updateData);
        rows := rows[input.id := updated];
        result := Some(updated);
      } else {
        result := None;
      }
    }
  }
}
