/** The cache of projected object records and the pool it recycles them through. A snapshot
    handed out shares the records of the cache; a record is overwritten only when no snapshot,
    no cache slot and no other pool entry holds it. */
module ProjectionCache {
  import opened Base
  import opened Values
  import P = Projection
  import R = ProjectionReuse
  import opened ObjectState

  // ----- the pool -----

  const BYTE_CAP: nat := 16 * 1024 * 1024
  const ENTRY_CAP: nat := 4096
  const WORD_MAX: nat := 0xFFFF_FFFF_FFFF_FFFF

  datatype Entry = Entry(bytes: nat, record: ProjectedRecord)

  function Total(entries: seq<Entry>): nat {
    if entries == [] then 0 else entries[0].bytes + Total(entries[1..])
  }

  predicate WithinCaps(entries: seq<Entry>) {
    Total(entries) <= 16_777_216 && |entries| <= 4096
  }

  /** The oldest entries go until the rest is within both caps. */
  function Trimmed(entries: seq<Entry>): seq<Entry> {
    if WithinCaps(entries) then entries else Trimmed(entries[1..])
  }

  lemma {:induction false} TotalAppend(entries: seq<Entry>, e: Entry)
    ensures Total(entries + [e]) == Total(entries) + e.bytes
  {
    if entries == [] {
      assert entries + [e] == [e] && [e][1..] == [];
    } else {
      assert (entries + [e])[1..] == entries[1..] + [e];
      TotalAppend(entries[1..], e);
    }
  }

  /** What is left is the longest rest within the caps. */
  lemma {:induction false} TrimmedIsLongest(entries: seq<Entry>) returns (n: nat)
    ensures n <= |entries| && Trimmed(entries) == entries[n..] && WithinCaps(entries[n..])
    ensures forall m :: 0 <= m < n ==> !WithinCaps(entries[m..])
  {
    if WithinCaps(entries) {
      n := 0;
    } else {
      var k := TrimmedIsLongest(entries[1..]);
      n := k + 1;
      assert entries[1..][k..] == entries[n..];
      forall m | 0 <= m < n ensures !WithinCaps(entries[m..]) {
        if m > 0 {
          assert entries[1..][m - 1..] == entries[m..];
        } else {
          assert entries[0..] == entries;
        }
      }
    }
  }

  function RecordsOf(entries: seq<Entry>): (records: seq<ProjectedRecord>)
    ensures |records| == |entries|
    ensures forall i :: 0 <= i < |records| ==> records[i] == entries[i].record
  {
    seq(|entries|, i requires 0 <= i < |entries| => entries[i].record)
  }

  function Members(records: seq<ProjectedRecord>): set<ProjectedRecord> {
    set r | r in records
  }

  class Pool {
    var entries: seq<Entry>
    var bytes: nat

    /** The byte count is the sum of the entries, and both caps hold. */
    ghost predicate Valid()
      reads this
    {
      bytes == Total(entries) && WithinCaps(entries)
    }

    constructor ()
      ensures Valid() && entries == []
    {
      entries := [];
      bytes := 0;
    }

    method Retire(record: ProjectedRecord, size: nat)
      requires Valid()
      modifies this
      ensures Valid()
      ensures entries == if size > 16_777_216 then old(entries) else Trimmed(old(entries) + [Entry(size, record)])
    {
      if size > BYTE_CAP {
        return;
      }
      TotalAppend(entries, Entry(size, record));
      bytes := bytes + size;
      entries := entries + [Entry(size, record)];
      ghost var grown := entries;
      while bytes > BYTE_CAP || |entries| > ENTRY_CAP
        invariant bytes == Total(entries) && Trimmed(entries) == Trimmed(grown)
        decreases |entries|
      {
        bytes := bytes - entries[0].bytes;
        entries := entries[1..];
      }
    }

    /** The oldest entry, if nobody else holds its record; a shared one goes to the back. */
    method Take(held: seq<ProjectedRecord>) returns (taken: Option<ProjectedRecord>)
      requires Valid()
      modifies this
      ensures Valid()
      ensures old(entries) == [] ==> taken == None && entries == []
      ensures old(entries) != [] ==>
        var first, rest := old(entries)[0], old(entries)[1..];
        if first.record !in held && first.record !in RecordsOf(rest) then taken == Some(first.record) && entries == rest
        else taken == None && entries == rest + [first]
    {
      if entries == [] {
        return None;
      }
      var first := entries[0];
      entries := entries[1..];
      bytes := bytes - first.bytes;
      if first.record !in held && first.record !in RecordsOf(entries) {
        return Some(first.record);
      }
      TotalAppend(entries, first);
      assert WithinCaps(entries + [first]);
      Retire(first.record, first.bytes);
      return None;
    }
  }

  // ----- the cache -----

  function Smaller(a: nat, b: nat): nat {
    if a < b then a else b
  }

  /** The layout of the object list: the plan of one object, its limits, the schema of a
      projected object and the safety check of a source object. */
  datatype Layout = Layout(items: P.Plan, limit: nat, takeFirst: bool, maximum: nat, schema: Value -> bool,
                           safe: Value -> bool) {
    /** The projection of a source object, when it is safe and meets the schema. */
    function Accepted(source: Value): Option<Value> {
      if !safe(source) then None
      else
        match P.Project(items, source)
        case None => None
        case Some(value) => if schema(value) then Some(value) else None
    }

    predicate Oversized(count: nat) {
      (!takeFirst && count > limit) || Smaller(count, limit) > maximum
    }

    /** Every source object is safe, and those within the limit project into the schema. */
    predicate Accepts(source: seq<ObjectRecord>) {
      && !Oversized(|source|)
      && (forall i :: 0 <= i < |source| ==> safe(source[i].source))
      && (forall i :: 0 <= i < |source| && i < limit ==> Accepted(source[i].source).Some?)
    }
  }

  ghost predicate Current(layout: Layout, record: ProjectedRecord)
    reads record
  {
    WellFormed(record.source.source) && WellFormed(record.value)
      && layout.Accepted(record.source.source) == Some(record.value)
  }

  ghost predicate AllCurrent(layout: Layout, records: seq<ProjectedRecord>)
    reads records
  {
    forall r :: r in records ==> Current(layout, r)
  }

  ghost predicate AllWellFormedValues(records: seq<ProjectedRecord>)
    reads records
  {
    forall r :: r in records ==> WellFormed(r.value)
  }

  class Cache {
    const layout: Layout
    const spares: Pool
    var records: seq<ProjectedRecord>
    /** The records of the snapshots that have been handed out and not dropped yet. */
    var live: seq<ProjectedRecord>

    ghost predicate Valid()
      reads this, spares, records, live, RecordsOf(spares.entries)
    {
      && P.Compiled(layout.items)
      && spares.Valid()
      && |records| <= layout.limit
      && Separate(records, spares.entries)
      && AllCurrent(layout, records)
      && AllCurrent(layout, live)
      && AllWellFormedValues(RecordsOf(spares.entries))
    }

    constructor (layout: Layout)
      requires P.Compiled(layout.items)
      ensures Valid() && this.layout == layout && records == [] && live == [] && fresh(spares)
    {
      this.layout := layout;
      spares := new Pool();
      records := [];
      live := [];
    }

    /** A record nobody else holds: recycled from the pool, or new. */
    method TakeRecord(record: ObjectRecord) returns (projected: ProjectedRecord)
      requires Valid()
      modifies spares
      ensures Valid()
      ensures projected !in records && projected !in live && projected !in RecordsOf(spares.entries)
      ensures WellFormed(projected.value)
      ensures projected in old(RecordsOf(spares.entries)) || fresh(projected)
      ensures forall r :: r in RecordsOf(spares.entries) ==> r in old(RecordsOf(spares.entries))
    {
      hide WellFormed, Current, Separate, Total, WithinCaps, P.Compiled;
      ghost var entries := spares.entries;
      if entries != [] {
        TakeSeparate(records, entries);
        FewerWellFormed(entries);
      }
      var taken := spares.Take(records + live);
      if taken.Some? {
        return taken.value;
      }
      NullIsWellFormed();
      projected := new ProjectedRecord(record);
    }

    /** The projected record takes its slot; what was there is retired. */
    method Install(index: nat, record: ObjectRecord, projected: ProjectedRecord, value: Value)
      requires Valid() && index <= |records| && index < layout.limit && projected !in records && projected !in live
      requires projected !in RecordsOf(spares.entries)
      requires WellFormed(record.source) && WellFormed(value) && layout.Accepted(record.source) == Some(value)
      modifies this`records, spares, projected
      ensures Valid()
      ensures records == if index < old(|records|) then old(records)[index := projected] else old(records) + [projected]
      ensures projected.source == record
      ensures forall r :: r in RecordsOf(spares.entries) ==> r in old(RecordsOf(spares.entries)) || r in old(records)
    {
      hide WellFormed, Current, Separate, Trimmed, Total, WithinCaps, P.Compiled, AllCurrent, AllWellFormedValues;
      ghost var entries, before := spares.entries, records;
      projected.value := value;
      projected.source := record;
      projected.retainedBytes := Smaller(projected.retainedBytes + record.retainedBytes, WORD_MAX);
      CurrentIntro(layout, projected);
      if index < |records| {
        var previous := records[index];
        RetireSeparate(before, entries, index, projected, previous.retainedBytes);
        ReplaceCurrent(layout, before, index, projected);
        records := records[index := projected];
        spares.Retire(previous, previous.retainedBytes);
        RetireWellFormed(layout, entries, before, index, previous.retainedBytes);
      } else {
        PushSeparate(before, entries, projected);
        PushCurrent(layout, before, projected);
        records := records + [projected];
      }
    }

    /** The slot of one source record that is not the record already there. */
    method Refresh(index: nat, record: ObjectRecord) returns (ok: bool)
      requires Valid() && index <= |records| && index < layout.limit && WellFormed(record.source)
      requires layout.safe(record.source)
      modifies this`records, spares, Members(RecordsOf(spares.entries))
      ensures Valid()
      ensures ok <==> layout.Accepted(record.source).Some?
      ensures !ok ==> records == old(records)
      ensures ok ==> |records| == (if index < old(|records|) then old(|records|) else index + 1)
      ensures ok ==> records[index].source == record
      ensures ok ==> forall j :: 0 <= j < old(|records|) && j != index ==> records[j] == old(records)[j]
      ensures forall r :: r in old(records) || r in live ==> unchanged(r)
      ensures forall r :: r in records || r in RecordsOf(spares.entries) ==>
        r in old(records) || r in old(RecordsOf(spares.entries)) || fresh(r)
    {
      hide WellFormed, Current, Separate, Total, WithinCaps, Trimmed, P.Compiled, P.Project, AllCurrent,
        AllWellFormedValues, Valid,
        RecordsOf, Layout.Accepted;
      ValidParts();
      AcceptedParts(layout, record.source);
      P.ProjectWellFormed(layout.items, record.source);
      var projected := TakeRecord(record);
      var value := R.ProjectReusing(layout.items, record.source, projected.value);
      if value.None? || !layout.schema(value.value) {
        return false;
      }
      Install(index, record, projected, value.value);
      return true;
    }

    /** The records beyond the source are dropped. */
    method Truncate(count: nat)
      requires Valid()
      modifies this`records
      ensures Valid()
      ensures records == if count < old(|records|) then old(records)[..count] else old(records)
    {
      if count < |records| {
        hide WellFormed, Current, P.Compiled, Total, WithinCaps, RecordsOf;
        records := records[..count];
      }
    }

    /** Another reference to every record of the cache. */
    method Snapshot() returns (snapshot: Records)
      requires Valid()
      modifies this`live
      ensures Valid()
      ensures snapshot == Records(records, None) && live == old(live) + records
      ensures WellFormedView(ViewOf(snapshot))
      ensures forall i :: 0 <= i < |records| ==> layout.Accepted(records[i].source.source) == Some(records[i].value)
    {
      SnapshotParts(layout, records);
      JoinCurrent(layout, live, records);
      hide WellFormed, Current, P.Compiled, Total, WithinCaps, RecordsOf, Layout.Accepted, Separate;
      snapshot := Records(records, None);
      live := live + records;
    }

    /** Some of the snapshots are dropped. */
    method Release(kept: seq<ProjectedRecord>)
      requires Valid() && forall r :: r in kept ==> r in live
      modifies this`live
      ensures Valid() && live == kept
    {
      hide WellFormed, Current, P.Compiled, Total, WithinCaps, RecordsOf, Separate;
      live := kept;
    }

    lemma RecordCurrent(i: nat)
      requires Valid() && i < |records|
      ensures layout.safe(records[i].source.source) && layout.Accepted(records[i].source.source).Some?
    {
      assert Current(layout, records[i]);
    }

    /** The projection of the current source records, index by index. A snapshot handed out
        earlier keeps every record it holds, whatever is recycled meanwhile. */
    method Project(source: seq<ObjectRecord>) returns (res: Option<Records>)
      requires Valid() && forall r :: r in source ==> WellFormed(r.source)
      modifies this, spares, Members(records), Members(RecordsOf(spares.entries))
      ensures Valid()
      ensures forall r :: r in old(live) ==> unchanged(r)
      ensures res.Some? <==> layout.Accepts(source)
      ensures res.Some? ==>
        var objects := res.value.objects;
        && res.value.spawns == None
        && |objects| == (if |source| < layout.limit then |source| else layout.limit)
        && live == old(live) + objects
        && WellFormedView(ViewOf(res.value))
        && forall i :: 0 <= i < |objects| ==>
             objects[i].source == source[i] && layout.Accepted(source[i].source) == Some(objects[i].value)
      ensures res.None? ==> live == old(live)
    {
      hide WellFormed, Current, Separate, Total, WithinCaps, Trimmed, P.Compiled, P.Project, AllCurrent,
        AllWellFormedValues, Valid,
        WellFormedView, ViewOf, ValuesOf, Layout.Accepted, Layout.Accepts, Layout.Oversized;
      AcceptsParts(layout, source);
      if layout.Oversized(|source|) {
        return None;
      }
      var limit := layout.limit;
      ValidParts();
      for index := 0 to |source|
        invariant Valid() && live == old(live) && |records| <= limit
        invariant if index < limit then index <= |records| else |records| == limit
        invariant forall r :: r in live ==> unchanged(r)
        invariant forall r :: r in records ==> r in old(records) || r in old(RecordsOf(spares.entries)) || fresh(r)
        invariant forall r :: r in RecordsOf(spares.entries) ==>
          r in old(records) || r in old(RecordsOf(spares.entries)) || fresh(r)
        invariant forall j :: 0 <= j < index ==> layout.safe(source[j].source)
        invariant forall j :: 0 <= j < index && j < limit ==> layout.Accepted(source[j].source).Some?
        invariant forall j :: 0 <= j < index && j < limit ==> records[j].source == source[j]
      {
        ValidParts();
        if index < |records| && records[index].source == source[index] {
          RecordCurrent(index);
        } else {
          if !layout.safe(source[index].source) {
            return None;
          }
          if index < limit {
            assert forall j :: 0 <= j < index ==> records[j] in records;
            var ok := Refresh(index, source[index]);
            if !ok {
              return None;
            }
          }
        }
      }
      Truncate(|source|);
      var snapshot := Snapshot();
      return Some(snapshot);
    }

    lemma ValidParts()
      requires Valid()
      ensures P.Compiled(layout.items) && |records| <= layout.limit
      ensures forall r :: r in records ==> r !in RecordsOf(spares.entries)
    {
    }
  }

  lemma AcceptsParts(layout: Layout, source: seq<ObjectRecord>)
    ensures layout.Accepts(source) <==>
      && !layout.Oversized(|source|)
      && (forall i :: 0 <= i < |source| ==> layout.safe(source[i].source))
      && (forall i :: 0 <= i < |source| && i < layout.limit ==> layout.Accepted(source[i].source).Some?)
  {
  }

  lemma SnapshotParts(layout: Layout, records: seq<ProjectedRecord>)
    requires AllCurrent(layout, records)
    ensures WellFormedView(ViewOf(Records(records, None)))
    ensures forall i :: 0 <= i < |records| ==> layout.Accepted(records[i].source.source) == Some(records[i].value)
  {
    hide WellFormed, Layout.Accepted;
    forall i | 0 <= i < |records|
      ensures WellFormed(records[i].value) && layout.Accepted(records[i].source.source) == Some(records[i].value) {
      assert records[i] in records;
      assert Current(layout, records[i]);
    }
  }

  lemma JoinCurrent(layout: Layout, a: seq<ProjectedRecord>, b: seq<ProjectedRecord>)
    requires AllCurrent(layout, a) && AllCurrent(layout, b)
    ensures AllCurrent(layout, a + b)
  {
  }

  lemma NullIsWellFormed()
    ensures WellFormed(Null)
  {
  }

  lemma AcceptedParts(layout: Layout, source: Value)
    requires layout.safe(source)
    ensures layout.Accepted(source) ==
      match P.Project(layout.items, source)
      case None => None
      case Some(value) => if layout.schema(value) then Some(value) else None
  {
  }

  lemma ReplaceCurrent(layout: Layout, records: seq<ProjectedRecord>, i: nat, projected: ProjectedRecord)
    requires AllCurrent(layout, records) && Current(layout, projected) && i < |records|
    ensures AllCurrent(layout, records[i := projected])
    ensures forall r :: r in records[i := projected] ==> r in records || r == projected
  {
  }

  lemma PushCurrent(layout: Layout, records: seq<ProjectedRecord>, projected: ProjectedRecord)
    requires AllCurrent(layout, records) && Current(layout, projected)
    ensures AllCurrent(layout, records + [projected])
  {
  }

  lemma RetireWellFormed(layout: Layout, entries: seq<Entry>, records: seq<ProjectedRecord>, i: nat, size: nat)
    requires AllCurrent(layout, records) && i < |records| && AllWellFormedValues(RecordsOf(entries))
    ensures AllWellFormedValues(RecordsOf(if size > BYTE_CAP then entries
                                          else Trimmed(entries + [Entry(size, records[i])])))
  {
    var grown := entries + [Entry(size, records[i])];
    RecordsOfAppend(entries, Entry(size, records[i]));
    var n := TrimmedIsLongest(grown);
    RecordsOfSuffix(grown, n);
    CurrentParts(layout, records[i]);
    assert forall r :: r in RecordsOf(grown)[n..] ==> r in RecordsOf(grown);
  }

  lemma FewerWellFormed(entries: seq<Entry>)
    requires entries != [] && AllWellFormedValues(RecordsOf(entries))
    ensures WellFormed(entries[0].record.value)
    ensures AllWellFormedValues(RecordsOf(entries[1..])) && AllWellFormedValues(RecordsOf(entries[1..] + [entries[0]]))
  {
    RecordsOfSuffix(entries, 1);
    RecordsOfAppend(entries[1..], entries[0]);
    assert RecordsOf(entries)[0] == entries[0].record;
    assert forall r :: r in RecordsOf(entries)[1..] ==> r in RecordsOf(entries);
  }

  lemma CurrentIntro(layout: Layout, record: ProjectedRecord)
    requires WellFormed(record.source.source) && WellFormed(record.value)
    requires layout.Accepted(record.source.source) == Some(record.value)
    ensures Current(layout, record)
  {
  }

  lemma CurrentParts(layout: Layout, record: ProjectedRecord)
    requires Current(layout, record)
    ensures WellFormed(record.value)
  {
  }

  lemma PushSeparate(records: seq<ProjectedRecord>, entries: seq<Entry>, projected: ProjectedRecord)
    requires Separate(records, entries) && projected !in records && projected !in RecordsOf(entries)
    ensures Separate(records + [projected], entries)
  {
  }

  /** No record is held twice by the cache and its pool. */
  ghost predicate Separate(records: seq<ProjectedRecord>, entries: seq<Entry>) {
    && NoDuplicates(records)
    && NoDuplicates(RecordsOf(entries))
    && forall r :: r in records ==> r !in RecordsOf(entries)
  }

  lemma RecordsOfSuffix(entries: seq<Entry>, n: nat)
    requires n <= |entries|
    ensures RecordsOf(entries[n..]) == RecordsOf(entries)[n..]
  {
  }

  lemma RecordsOfAppend(entries: seq<Entry>, e: Entry)
    ensures RecordsOf(entries + [e]) == RecordsOf(entries) + [e.record]
  {
  }

  /** Taking the oldest entry, or sending it to the back. */
  lemma TakeSeparate(records: seq<ProjectedRecord>, entries: seq<Entry>)
    requires Separate(records, entries) && entries != []
    ensures Separate(records, entries[1..]) && entries[0].record !in records
    ensures entries[0].record !in RecordsOf(entries[1..])
    ensures Separate(records, entries[1..] + [entries[0]])
    ensures forall r :: r in RecordsOf(entries[1..] + [entries[0]]) ==> r in RecordsOf(entries)
    ensures forall r :: r in RecordsOf(entries[1..]) ==> r in RecordsOf(entries)
  {
    var all := RecordsOf(entries);
    RecordsOfSuffix(entries, 1);
    RecordsOfAppend(entries[1..], entries[0]);
    assert all[0] == entries[0].record;
    assert forall r :: r in all[1..] ==> r in all;
    assert forall j :: 0 <= j < |all[1..]| ==> all[1..][j] == all[j + 1];
  }

  /** A record leaves its slot for the pool, which may drop its oldest entries. */
  lemma RetireSeparate(records: seq<ProjectedRecord>, entries: seq<Entry>, i: nat, projected: ProjectedRecord,
                       size: nat)
    requires Separate(records, entries) && i < |records|
    requires projected !in records && projected !in RecordsOf(entries)
    ensures
      var entries' := if size > BYTE_CAP then entries else Trimmed(entries + [Entry(size, records[i])]);
      && Separate(records[i := projected], entries')
      && (forall r :: r in RecordsOf(entries') ==> r in RecordsOf(entries) || r == records[i])
  {
    ReplaceDistinct(records, i, projected);
    DropDistinct(entries, Entry(size, records[i]));
  }

  lemma ReplaceDistinct(records: seq<ProjectedRecord>, i: nat, projected: ProjectedRecord)
    requires NoDuplicates(records) && i < |records| && projected !in records
    ensures NoDuplicates(records[i := projected]) && records[i] !in records[i := projected]
    ensures forall r :: r in records[i := projected] ==> r in records || r == projected
  {
    var replaced := records[i := projected];
    forall k | 0 <= k < |replaced|
      ensures replaced[k] != records[i] && (replaced[k] in records || replaced[k] == projected) {
      if k != i {
        assert replaced[k] == records[k];
      }
    }
  }

  lemma DropDistinct(entries: seq<Entry>, e: Entry)
    requires NoDuplicates(RecordsOf(entries)) && e.record !in RecordsOf(entries)
    ensures NoDuplicates(RecordsOf(Trimmed(entries + [e])))
    ensures forall r :: r in RecordsOf(Trimmed(entries + [e])) ==> r in RecordsOf(entries) || r == e.record
  {
    var grown := entries + [e];
    RecordsOfAppend(entries, e);
    var n := TrimmedIsLongest(grown);
    RecordsOfSuffix(grown, n);
    var all, rest := RecordsOf(grown), RecordsOf(grown)[n..];
    assert forall k :: 0 <= k < |rest| ==> rest[k] == all[k + n];
  }

  // ----- the spawn list -----

  /** A source spawn list; two are the same one only by identity. */
  class SpawnRecord {
    const source: Value

    constructor (source: Value)
      ensures this.source == source
    {
      this.source := source;
    }
  }

  datatype HeldSpawns = HeldSpawns(source: SpawnRecord, spawns: ProjectedSpawns)

  /** Of the layout only the plan, the schema and the safety check matter here. */
  class SpawnCache {
    const layout: Layout
    var held: Option<HeldSpawns>

    ghost predicate Valid()
      reads this
    {
      && P.Compiled(layout.items)
      && (held.Some? ==>
        && WellFormed(held.value.spawns.value)
        && layout.Accepted(held.value.source.source) == Some(held.value.spawns.value))
    }

    constructor (layout: Layout)
      requires P.Compiled(layout.items)
      ensures Valid() && this.layout == layout && held == None
    {
      this.layout := layout;
      held := None;
    }

    /** The projection of the current spawn list: the very object of the tick before while the
        source is the same one, and nothing after a tick without spawns. */
    method Project(source: Option<SpawnRecord>) returns (ok: bool, res: Option<ProjectedSpawns>)
      requires Valid() && (source.Some? ==> WellFormed(source.value.source))
      modifies this
      ensures Valid()
      ensures ok <==> (source.Some? ==> layout.Accepted(source.value.source).Some?)
      ensures ok ==> res.Some? == source.Some? && held.Some? == source.Some?
      ensures ok && source.Some? ==>
        && layout.Accepted(source.value.source) == Some(res.value.value) && WellFormed(res.value.value)
        && held.value == HeldSpawns(source.value, res.value)
      ensures source.Some? && old(held).Some? && old(held).value.source == source.value ==>
        res == Some(old(held).value.spawns)
      ensures !ok ==> held == old(held)
    {
      if source.None? {
        held := None;
        return true, None;
      }
      if held.Some? && held.value.source == source.value {
        return true, Some(held.value.spawns);
      }
      if !layout.safe(source.value.source) {
        return false, None;
      }
      P.ProjectWellFormed(layout.items, source.value.source);
      var value := P.Project(layout.items, source.value.source);
      if value.None? || !layout.schema(value.value) {
        return false, None;
      }
      var spawns := new ProjectedSpawns(value.value);
      held := Some(HeldSpawns(source.value, spawns));
      return true, Some(spawns);
    }
  }
}
