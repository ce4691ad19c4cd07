/**
 * The admin review page: record normalisation, the offline edits of the
 * local mirror, the refresh that replaces the table and counts new entries,
 * the table filter and sort order, the edit and delete of one record, and
 * the admin position tags.
 */
module Admin {
  import opened Wrappers
  import opened Strings
  import opened Seqs
  import opened Records
  import opened Storage
  import opened Remote
  import Client

  // ----- Record normalisation -----

  /** The four fields the admin table relies on are all present. */
  predicate AdminFieldsPresent(r: Record) {
    r.status.Some? && r.healthCertNumber.Some? && r.adminPosition.Some? && r.ref.Some?
  }

  /**
   * `ensureAdminFields`: each falsy system field gets its default, a missing
   * reference becomes `ATT-` followed by the random `suffix`; truthy values
   * and every other field are left alone.
   */
  function EnsureAdminFields(r: Record, suffix: string): (n: Record)
    ensures AdminFieldsPresent(n) && Truthy(n.status) && Truthy(n.ref)
    ensures Truthy(r.status) ==> n.status == r.status
    ensures Truthy(r.healthCertNumber) ==> n.healthCertNumber == r.healthCertNumber
    ensures Truthy(r.adminPosition) ==> n.adminPosition == r.adminPosition
    ensures Truthy(r.ref) ==> n.ref == r.ref
    ensures !Truthy(r.status) ==> n.status == Some("Pending")
    ensures !Truthy(r.healthCertNumber) ==> n.healthCertNumber == Some("")
    ensures !Truthy(r.adminPosition) ==> n.adminPosition == Some("")
    ensures !Truthy(r.ref) ==> n.ref == Some("ATT-" + suffix)
    ensures n.(ref := r.ref, status := r.status, adminPosition := r.adminPosition,
               healthCertNumber := r.healthCertNumber) == r
  {
    r.(status := if Truthy(r.status) then r.status else Some("Pending"),
       healthCertNumber := if Truthy(r.healthCertNumber) then r.healthCertNumber else Some(""),
       adminPosition := if Truthy(r.adminPosition) then r.adminPosition else Some(""),
       ref := if Truthy(r.ref) then r.ref else Some("ATT-" + suffix))
  }

  /** Normalising twice is normalising once, whatever the second random suffix. */
  lemma EnsureAdminFieldsIdempotent(r: Record, s1: string, s2: string)
    ensures EnsureAdminFields(EnsureAdminFields(r, s1), s2) == EnsureAdminFields(r, s1)
  {
  }

  /** A record created by the submission page is already normal: normalising it changes nothing. */
  lemma SubmittedRecordIsNormal(record: Record, now: nat, suffix: string)
    ensures EnsureAdminFields(Client.Stamp(record, now), suffix) == Client.Stamp(record, now)
  {
  }

  /** `records.forEach(ensureAdminFields)`, with the `i`-th random draw `suffix(i)`. */
  method NormalizeAll(rs: seq<Record>, suffix: nat -> string) returns (out: seq<Record>)
    ensures |out| == |rs|
    ensures forall i :: 0 <= i < |rs| ==> out[i] == EnsureAdminFields(rs[i], suffix(i))
    ensures forall i :: 0 <= i < |out| ==> AdminFieldsPresent(out[i])
  {
    out := [];
    for i := 0 to |rs|
      invariant |out| == i
      invariant forall k :: 0 <= k < i ==> out[k] == EnsureAdminFields(rs[k], suffix(k))
    {
      out := out + [EnsureAdminFields(rs[i], suffix(i))];
    }
  }

  // ----- Offline edits of the mirror -----

  /** Position `i` holds the first record of `cache` whose `ref` is `ref`. */
  predicate IsFirstWithRef(cache: seq<Record>, ref: Option<string>, i: int) {
    0 <= i < |cache| && cache[i].ref == ref && forall j :: 0 <= j < i ==> cache[j].ref != ref
  }

  /** The offline branch of `pushRecordToSheets`: replace the first record with the same `ref`, or append. */
  function Upsert(cache: seq<Record>, record: Record): (r: seq<Record>)
    ensures forall i :: IsFirstWithRef(cache, record.ref, i) ==> r == cache[i := record]
    ensures (forall j :: 0 <= j < |cache| ==> cache[j].ref != record.ref) ==> r == cache + [record]
    ensures |r| == |cache| || |r| == |cache| + 1
    ensures record in r
  {
    var same := (x: Record) => x.ref == record.ref;
    var found := FindIndex(cache, same);
    assert forall j :: 0 <= j < |cache| ==> (same(cache[j]) <==> cache[j].ref == record.ref);
    if found.Some? then
      var r := cache[found.value := record];
      assert r[found.value] == record;
      r
    else cache + [record]
  }

  /** The offline branch of `deleteRecordFromSheets`: `cache.filter(r => r.ref !== ref)`. */
  function RemoveByRef(cache: seq<Record>, ref: Option<string>): (r: seq<Record>)
    ensures forall j :: 0 <= j < |r| ==> r[j].ref != ref
    ensures forall x :: x in r <==> x in cache && x.ref != ref
    ensures |r| <= |cache|
    decreases |cache|
  {
    if cache == [] then []
    else (if cache[0].ref == ref then [] else [cache[0]]) + RemoveByRef(cache[1..], ref)
  }

  /** Deleting by `ref` keeps the other records in their original order: it splits over concatenation. */
  lemma {:induction false} RemoveByRefAppend(a: seq<Record>, b: seq<Record>, ref: Option<string>)
    ensures RemoveByRef(a + b, ref) == RemoveByRef(a, ref) + RemoveByRef(b, ref)
    decreases |a|
  {
    if a == [] {
      assert a + b == b;
    } else {
      assert (a + b)[1..] == a[1..] + b;
      RemoveByRefAppend(a[1..], b, ref);
    }
  }

  /** When no record carries `ref`, deleting it changes nothing. */
  lemma {:induction false} RemoveAbsentRef(cache: seq<Record>, ref: Option<string>)
    requires forall j :: 0 <= j < |cache| ==> cache[j].ref != ref
    ensures RemoveByRef(cache, ref) == cache
    decreases |cache|
  {
    if cache != [] {
      RemoveAbsentRef(cache[1..], ref);
    }
  }

  /** No two records share a `ref`. */
  predicate UniqueRefs(cache: seq<Record>) {
    forall i, j :: 0 <= i < j < |cache| ==> cache[i].ref != cache[j].ref
  }

  /** Upserting keeps references unique. */
  lemma UpsertKeepsRefsUnique(cache: seq<Record>, record: Record)
    requires UniqueRefs(cache)
    ensures UniqueRefs(Upsert(cache, record))
  {
    if exists i :: 0 <= i < |cache| && cache[i].ref == record.ref {
      var i :| 0 <= i < |cache| && cache[i].ref == record.ref;
      assert IsFirstWithRef(cache, record.ref, i);
    }
  }

  /** Deleting a reference after upserting a record with it is the same as deleting it outright. */
  lemma {:induction false} RemoveAfterUpsert(cache: seq<Record>, record: Record)
    ensures RemoveByRef(Upsert(cache, record), record.ref) == RemoveByRef(cache, record.ref)
  {
    var ref := record.ref;
    if i :| IsFirstWithRef(cache, ref, i) {
      var up := cache[i := record];
      assert up == cache[..i] + [record] + cache[i + 1..];
      assert cache == cache[..i] + [cache[i]] + cache[i + 1..];
      RemoveByRefAppend(cache[..i] + [record], cache[i + 1..], ref);
      RemoveByRefAppend(cache[..i], [record], ref);
      RemoveByRefAppend(cache[..i] + [cache[i]], cache[i + 1..], ref);
      RemoveByRefAppend(cache[..i], [cache[i]], ref);
    } else {
      if exists j :: 0 <= j < |cache| && cache[j].ref == ref {
        FirstWithRefExists(cache, ref);
      }
      RemoveByRefAppend(cache, [record], ref);
    }
  }

  lemma {:induction false} FirstWithRefExists(cache: seq<Record>, ref: Option<string>)
    requires exists j :: 0 <= j < |cache| && cache[j].ref == ref
    ensures exists i :: IsFirstWithRef(cache, ref, i)
    decreases |cache|
  {
    if cache[0].ref == ref {
      assert IsFirstWithRef(cache, ref, 0);
    } else {
      var j :| 0 <= j < |cache| && cache[j].ref == ref;
      assert cache[1..][j - 1].ref == ref;
      FirstWithRefExists(cache[1..], ref);
      var i :| IsFirstWithRef(cache[1..], ref, i);
      assert IsFirstWithRef(cache, ref, i + 1);
    }
  }

  // ----- The refresh -----

  /** The "N new entries" toast of a successful refresh: only after a non-empty refresh, and only on growth. */
  function NewEntries(lastRowCount: nat, incoming: nat): (n: Option<nat>)
    ensures n.Some? <==> lastRowCount > 0 && incoming > lastRowCount
    ensures n.Some? ==> n.value > 0 && lastRowCount + n.value == incoming
  {
    if lastRowCount > 0 && incoming > lastRowCount then Some(incoming - lastRowCount) else None
  }

  /** Over two refreshes in which the sheet only grows, the toasts add up to the whole growth. */
  lemma NewEntriesAddUp(last: nat, first: nat, second: nat)
    requires 0 < last <= first <= second
    ensures NewEntries(last, first).GetOr(0) + NewEntries(first, second).GetOr(0) == second - last
  {
  }

  // ----- The table filter and sort order -----

  /** The four controls above the table. */
  datatype TableQuery = TableQuery(search: string, filterStatus: string, filterAppType: string, filterCertType: string)

  /** The lower-cased text the search box is matched against. */
  function SearchText(r: Record): string {
    Lower(Join([r.lastName, r.firstName, r.middleName, r.establishmentName, TextOf(r.ref)], " "))
  }

  /** The `renderTable` filter: each non-empty control must match. */
  predicate Passes(r: Record, q: TableQuery) {
    var search := Lower(q.search);
    && (search == [] || Contains(SearchText(r), search))
    && (q.filterStatus == "" || r.status == Some(q.filterStatus))
    && (q.filterAppType == "" || r.applicationType == q.filterAppType)
    && (q.filterCertType == "" || r.healthCertificateType == q.filterCertType)
  }

  /** Searching for a record's own reference, in any letter case, finds it. */
  lemma SearchFindsRef(r: Record, q: TableQuery)
    requires Truthy(r.ref) && Lower(q.search) == Lower(r.ref.value)
    requires q.filterStatus == "" && q.filterAppType == "" && q.filterCertType == ""
    ensures Passes(r, q)
  {
    var front := Join([r.lastName, r.firstName, r.middleName, r.establishmentName], " ") + " ";
    var ref := r.ref.value;
    var names := [r.lastName, r.firstName, r.middleName, r.establishmentName];
    JoinSnoc(names, ref, " ");
    assert names + [ref] == [r.lastName, r.firstName, r.middleName, r.establishmentName, ref];
    LowerAppend(front, ref);
    var text := Lower(front) + Lower(ref);
    assert Lower(ref) <= text[|Lower(front)|..];
  }

  /** With every control empty the table shows every record. */
  lemma EmptyQueryShowsAll(r: Record)
    ensures Passes(r, TableQuery("", "", "", ""))
  {
    assert Lower("") == [];
  }

  /** A record shown under a query is still shown once one of its dropdown filters is cleared. */
  lemma ClearingFilterWidens(r: Record, q: TableQuery)
    requires Passes(r, q)
    ensures Passes(r, q.(filterStatus := ""))
    ensures Passes(r, q.(filterAppType := ""))
    ensures Passes(r, q.(filterCertType := ""))
  {
  }

  /** `(r[col] || '').toString()` for the sortable columns; any other column reads as empty. */
  function ColumnText(r: Record, col: string): string {
    if col == "timestamp" then r.timestamp
    else if col == "lastName" then r.lastName
    else if col == "firstName" then r.firstName
    else if col == "middleName" then r.middleName
    else if col == "gender" then r.gender
    else if col == "residentialAddress" then r.residentialAddress
    else if col == "applicationType" then r.applicationType
    else if col == "healthCertificateType" then r.healthCertificateType
    else if col == "lostCertificate" then r.lostCertificate
    else if col == "position" then r.position
    else if col == "establishmentName" then r.establishmentName
    else if col == "establishmentAddress" then r.establishmentAddress
    else if col == "ref" then TextOf(r.ref)
    else if col == "status" then TextOf(r.status)
    else if col == "adminPosition" then TextOf(r.adminPosition)
    else if col == "healthCertNumber" then TextOf(r.healthCertNumber)
    else ""
  }

  /** The `filtered.sort` comparator: lower-cased column text, in direction `dir`. */
  function CompareRows(a: Record, b: Record, col: string, dir: int): int {
    var av := Lower(ColumnText(a, col));
    var bv := Lower(ColumnText(b, col));
    if LexLess(av, bv) then -dir else if LexLess(bv, av) then dir else 0
  }

  /** Swapping the two rows negates the comparison. */
  lemma CompareAntisymmetric(a: Record, b: Record, col: string, dir: int)
    ensures CompareRows(a, b, col, dir) == -CompareRows(b, a, col, dir)
  {
    LexLessTrichotomy(Lower(ColumnText(a, col)), Lower(ColumnText(b, col)));
  }

  /** Two rows tie exactly when their column texts agree ignoring letter case, whatever the direction. */
  lemma CompareTiesIff(a: Record, b: Record, col: string, dir: int)
    requires dir == 1 || dir == -1
    ensures CompareRows(a, b, col, dir) == 0 <==> Lower(ColumnText(a, col)) == Lower(ColumnText(b, col))
  {
    var av, bv := Lower(ColumnText(a, col)), Lower(ColumnText(b, col));
    LexLessTrichotomy(av, bv);
    LexLessIrreflexive(av);
  }

  /** Reversing the direction reverses every comparison. */
  lemma CompareReversed(a: Record, b: Record, col: string, dir: int)
    ensures CompareRows(a, b, col, -dir) == -CompareRows(a, b, col, dir)
  {
  }

  /** The comparator is consistent in either direction: "sorts before" is transitive. */
  lemma CompareTransitive(a: Record, b: Record, c: Record, col: string, dir: int)
    requires dir == 1 || dir == -1
    requires CompareRows(a, b, col, dir) < 0 && CompareRows(b, c, col, dir) < 0
    ensures CompareRows(a, c, col, dir) < 0
  {
    var av, bv, cv := Lower(ColumnText(a, col)), Lower(ColumnText(b, col)), Lower(ColumnText(c, col));
    LexLessTrichotomy(av, bv);
    LexLessTrichotomy(bv, cv);
    LexLessTrichotomy(av, cv);
    if dir == 1 {
      LexLessTransitive(av, bv, cv);
    } else {
      LexLessTransitive(cv, bv, av);
    }
  }

  // ----- Editing one record -----

  /** The values of the edit dialog, as typed. */
  datatype EditForm = EditForm(
    lastName: string,
    firstName: string,
    middleName: string,
    gender: string,
    residentialAddress: string,
    applicationType: string,
    healthCertificateType: string,
    lostCertificate: string,
    establishmentName: string,
    establishmentAddress: string,
    healthCertNumber: string,
    status: string)

  /**
   * The field updates of `saveRecord`. The client-declared `position`, the
   * `ref` and the `timestamp` are never touched; the admin tag is the selected
   * one, or empty when none is selected.
   */
  function ApplyEdit(r: Record, form: EditForm, selected: Option<string>): (e: Record)
    ensures e.position == r.position && e.ref == r.ref && e.timestamp == r.timestamp
    ensures e.adminPosition == Some(TextOf(selected))
    ensures e.lastName == Trim(form.lastName) && e.firstName == Trim(form.firstName)
    ensures e.middleName == Trim(form.middleName)
    ensures e.residentialAddress == Trim(form.residentialAddress)
    ensures e.establishmentName == Trim(form.establishmentName)
    ensures e.establishmentAddress == Trim(form.establishmentAddress)
    ensures e.gender == form.gender && e.applicationType == form.applicationType
    ensures e.healthCertificateType == form.healthCertificateType && e.lostCertificate == form.lostCertificate
    ensures e.status == Some(form.status) && e.healthCertNumber == Some(Trim(form.healthCertNumber))
  {
    r.(lastName := Trim(form.lastName),
       firstName := Trim(form.firstName),
       middleName := Trim(form.middleName),
       gender := form.gender,
       residentialAddress := Trim(form.residentialAddress),
       applicationType := form.applicationType,
       healthCertificateType := form.healthCertificateType,
       lostCertificate := form.lostCertificate,
       establishmentName := Trim(form.establishmentName),
       establishmentAddress := Trim(form.establishmentAddress),
       healthCertNumber := Some(Trim(form.healthCertNumber)),
       status := Some(form.status),
       adminPosition := Some(TextOf(selected)))
  }

  /** Editing never changes which record a `ref` designates: the upsert of an edit replaces it in place. */
  lemma EditReplacesInPlace(cache: seq<Record>, i: nat, form: EditForm, selected: Option<string>)
    requires UniqueRefs(cache) && i < |cache|
    ensures Upsert(cache, ApplyEdit(cache[i], form, selected)) == cache[i := ApplyEdit(cache[i], form, selected)]
  {
    assert IsFirstWithRef(cache, cache[i].ref, i);
  }

  // ----- Admin position tags -----

  /** The admin tag vocabulary the page starts with (separate from the client's own positions). */
  const DefaultPositionOptions: seq<string> := [
    "Manual", "Workpass", "Business Owner", "OJT / Student", "Night Market", "Replacement", "Government"]

  /** Clicking a tag: selecting the selected tag clears the selection, any other tag becomes the selection. */
  function ToggleTag(selected: Option<string>, pos: string): (s: Option<string>)
    ensures s == Some(pos) <==> selected != Some(pos)
    ensures s.None? <==> selected == Some(pos)
  {
    if selected == Some(pos) then None else Some(pos)
  }

  /** Clicking the same tag twice restores a selection of that tag or of nothing. */
  lemma ToggleTwice(selected: Option<string>, pos: string)
    requires selected.None? || selected == Some(pos)
    ensures ToggleTag(ToggleTag(selected, pos), pos) == selected
  {
  }

  /** What an edit or delete in the dialog leads to. */
  datatype DialogOutcome =
    | NotEditing            // no dialog open: nothing happens
    | StaleIndex            // the dialog's index is past the end of `records`: the handler throws
    | Toast(message: string)

  /**
   * The admin page. Its fields are the page's module-level variables;
   * `store` is the device's storage and `endpoint` the configured URL.
   */
  class AdminPanel {
    const store: LocalStore
    const endpoint: string
    var records: seq<Record>
    var editingIdx: Option<nat>
    var sortCol: string
    var sortDir: int
    var lastRowCount: nat
    var selectedAdminPosition: Option<string>
    var adminPositionOptions: seq<string>
    var status: ConnectionStatus
    /** Whether the 30-second poll timer is armed. */
    var polling: bool

    /** The sort direction is always ascending (1) or descending (-1). */
    ghost predicate Valid()
      reads this
    {
      sortDir == 1 || sortDir == -1
    }

    /** The page's initial state; a stored tag vocabulary replaces the default one. */
    constructor (store: LocalStore, endpoint: string)
      ensures Valid()
      ensures this.store == store && this.endpoint == endpoint
      ensures records == [] && editingIdx == None && lastRowCount == 0
      ensures sortCol == "timestamp" && sortDir == -1
      ensures selectedAdminPosition == None && !polling
      ensures adminPositionOptions == store.adminPositionOptions.GetOr(DefaultPositionOptions)
    {
      this.store := store;
      this.endpoint := endpoint;
      records := [];
      editingIdx := None;
      sortCol := "timestamp";
      sortDir := -1;
      lastRowCount := 0;
      selectedAdminPosition := None;
      adminPositionOptions := store.adminPositionOptions.GetOr(DefaultPositionOptions);
      status := Loading;
      polling := false;
    }

    /**
     * `loadRecords`. Unconfigured: the table is the normalised mirror and the
     * status `Offline`. Otherwise a fetched list is normalised, replaces the
     * table and the mirror, sets `lastRowCount` and may raise the new-entries
     * toast; a failed or malformed fetch changes nothing but the status.
     */
    method LoadRecords(response: FetchResult, suffix: nat -> string) returns (newEntries: Option<nat>)
      requires Valid()
      modifies this`records, this`lastRowCount, this`status, store`sheetsCache
      ensures Valid()
      ensures !IsConfigured(endpoint) ==>
        && |records| == |store.sheetsCache|
        && (forall i :: 0 <= i < |records| ==> records[i] == EnsureAdminFields(store.sheetsCache[i], suffix(i)))
        && store.sheetsCache == old(store.sheetsCache)
        && lastRowCount == old(lastRowCount) && status == Offline && newEntries == None
      ensures IsConfigured(endpoint) && response.Fetched? ==>
        var incoming := response.records;
        && |records| == |incoming|
        && (forall i :: 0 <= i < |records| ==> records[i] == EnsureAdminFields(incoming[i], suffix(i)))
        && store.sheetsCache == records
        && newEntries == NewEntries(old(lastRowCount), |incoming|)
        && lastRowCount == |incoming| && status == Live
      ensures IsConfigured(endpoint) && !response.Fetched? ==>
        && records == old(records) && store.sheetsCache == old(store.sheetsCache)
        && lastRowCount == old(lastRowCount) && status == Error && newEntries == None
    {
      status := Loading;
      if !IsConfigured(endpoint) {
        records := NormalizeAll(store.sheetsCache, suffix);
        status := Offline;
        return None;
      }
      if !response.Fetched? {
        status := Error;
        return None;
      }
      var incoming := NormalizeAll(response.records, suffix);
      newEntries := NewEntries(lastRowCount, |incoming|);
      lastRowCount := |incoming|;
      records := incoming;
      store.sheetsCache := records;
      status := Live;
    }

    /** `startPolling`: any previous timer is cleared and one timer is armed. */
    method StartPolling()
      modifies this`polling
      ensures polling
    {
      polling := true;
    }

    /** `stopPolling`. */
    method StopPolling()
      modifies this`polling
      ensures !polling
    {
      polling := false;
    }

    /** The `visibilitychange` handler: a hidden page stops polling; a visible one refreshes at once and polls again. */
    method OnVisibilityChange(hidden: bool, response: FetchResult, suffix: nat -> string)
      requires Valid()
      modifies this`records, this`lastRowCount, this`status, this`polling, store`sheetsCache
      ensures Valid()
      ensures polling == !hidden
      ensures hidden ==> records == old(records) && lastRowCount == old(lastRowCount)
                         && store.sheetsCache == old(store.sheetsCache) && status == old(status)
      ensures !hidden && !IsConfigured(endpoint) ==>
        && |records| == |old(store.sheetsCache)|
        && (forall i :: 0 <= i < |records| ==> records[i] == EnsureAdminFields(old(store.sheetsCache)[i], suffix(i)))
        && store.sheetsCache == old(store.sheetsCache)
        && lastRowCount == old(lastRowCount) && status == Offline
      ensures !hidden && IsConfigured(endpoint) && response.Fetched? ==>
        var incoming := response.records;
        && |records| == |incoming|
        && (forall i :: 0 <= i < |records| ==> records[i] == EnsureAdminFields(incoming[i], suffix(i)))
        && store.sheetsCache == records
        && lastRowCount == |incoming| && status == Live
      ensures !hidden && IsConfigured(endpoint) && !response.Fetched? ==>
        && records == old(records) && store.sheetsCache == old(store.sheetsCache)
        && lastRowCount == old(lastRowCount) && status == Error
    {
      if hidden {
        StopPolling();
      } else {
        var _ := LoadRecords(response, suffix);
        StartPolling();
      }
    }

    /** `pushRecordToSheets` seen locally: offline, the mirror gets the upsert; the result says whether the send failed. */
    method PushRecordToSheets(record: Record, sendFails: bool) returns (failed: bool)
      modifies store`sheetsCache
      ensures !IsConfigured(endpoint) ==> store.sheetsCache == Upsert(old(store.sheetsCache), record) && !failed
      ensures IsConfigured(endpoint) ==> store.sheetsCache == old(store.sheetsCache) && failed == sendFails
    {
      if !IsConfigured(endpoint) {
        store.sheetsCache := Upsert(store.sheetsCache, record);
        return false;
      }
      failed := sendFails;
    }

    /** `deleteRecordFromSheets` seen locally: offline, the mirror loses every record with `ref`. */
    method DeleteRecordFromSheets(ref: Option<string>, sendFails: bool) returns (failed: bool)
      modifies store`sheetsCache
      ensures !IsConfigured(endpoint) ==> store.sheetsCache == RemoveByRef(old(store.sheetsCache), ref) && !failed
      ensures IsConfigured(endpoint) ==> store.sheetsCache == old(store.sheetsCache) && failed == sendFails
    {
      if !IsConfigured(endpoint) {
        store.sheetsCache := RemoveByRef(store.sheetsCache, ref);
        return false;
      }
      failed := sendFails;
    }

    /** The rows `renderTable` shows: the positions (`_idx`) of the passing records, in table order. */
    method VisibleRows(q: TableQuery) returns (rows: seq<nat>)
      ensures forall k :: 0 <= k < |rows| ==> rows[k] < |records| && Passes(records[rows[k]], q)
      ensures forall i :: 0 <= i < |records| && Passes(records[i], q) ==> i in rows
      ensures forall k, l :: 0 <= k < l < |rows| ==> rows[k] < rows[l]
    {
      rows := [];
      for i := 0 to |records|
        invariant forall k :: 0 <= k < |rows| ==> rows[k] < i && Passes(records[rows[k]], q)
        invariant forall j :: 0 <= j < i && Passes(records[j], q) ==> j in rows
        invariant forall k, l :: 0 <= k < l < |rows| ==> rows[k] < rows[l]
      {
        if Passes(records[i], q) {
          rows := rows + [i];
        }
      }
    }

    /** `sortBy`: the current column flips direction, a new column sorts ascending. */
    method SortBy(col: string)
      requires Valid()
      modifies this`sortCol, this`sortDir
      ensures Valid()
      ensures old(sortCol) == col ==> sortCol == col && sortDir == -old(sortDir)
      ensures old(sortCol) != col ==> sortCol == col && sortDir == 1
    {
      if sortCol == col {
        sortDir := sortDir * -1;
      } else {
        sortCol := col;
        sortDir := 1;
      }
    }

    /**
     * The state part of `openModal`: remember the row and preselect its admin
     * tag. An index past the end of `records` is remembered but the handler
     * throws before the tag is preselected.
     */
    method OpenModal(idx: nat)
      modifies this`editingIdx, this`selectedAdminPosition
      ensures editingIdx == Some(idx)
      ensures idx < |records| ==>
        selectedAdminPosition == if Truthy(records[idx].adminPosition) then records[idx].adminPosition else None
      ensures idx >= |records| ==> selectedAdminPosition == old(selectedAdminPosition)
    {
      editingIdx := Some(idx);
      if idx >= |records| {
        return;
      }
      var r := records[idx];
      selectedAdminPosition := if Truthy(r.adminPosition) then r.adminPosition else None;
    }

    /** The state part of `closeModal`. */
    method CloseModal()
      modifies this`editingIdx
      ensures editingIdx == None
    {
      editingIdx := None;
    }

    /** A click on an admin tag. */
    method ClickTag(pos: string)
      modifies this`selectedAdminPosition
      ensures selectedAdminPosition == ToggleTag(old(selectedAdminPosition), pos)
    {
      selectedAdminPosition := if selectedAdminPosition == Some(pos) then None else Some(pos);
    }

    /**
     * `addCustomPosition`: a blank entry does nothing; otherwise the trimmed
     * value is added to the vocabulary unless present, selected, and the
     * vocabulary is saved.
     */
    method AddCustomPosition(input: string)
      modifies this`adminPositionOptions, this`selectedAdminPosition, store`adminPositionOptions
      ensures Trim(input) == "" ==>
        && adminPositionOptions == old(adminPositionOptions)
        && selectedAdminPosition == old(selectedAdminPosition)
        && store.adminPositionOptions == old(store.adminPositionOptions)
      ensures Trim(input) != "" ==>
        && adminPositionOptions == AppendIfAbsent(old(adminPositionOptions), Trim(input))
        && selectedAdminPosition == Some(Trim(input))
        && store.adminPositionOptions == Some(adminPositionOptions)
      ensures NoDuplicates(old(adminPositionOptions)) ==> NoDuplicates(adminPositionOptions)
    {
      var val := Trim(input);
      if val == "" {
        return;
      }
      if val !in adminPositionOptions {
        adminPositionOptions := adminPositionOptions + [val];
      }
      selectedAdminPosition := Some(val);
      store.adminPositionOptions := Some(adminPositionOptions);
    }

    /**
     * `saveRecord`: apply the dialog to the record being edited, push it
     * (offline: upsert into the mirror) and close the dialog.
     */
    method SaveRecord(form: EditForm, sendFails: bool) returns (outcome: DialogOutcome)
      modifies this`records, this`editingIdx, store`sheetsCache
      ensures old(editingIdx).None? ==> outcome == NotEditing && unchanged(this) && unchanged(store)
      ensures old(editingIdx).Some? && old(editingIdx).value >= old(|records|) ==>
        outcome == StaleIndex && unchanged(this) && unchanged(store)
      ensures old(editingIdx).Some? && old(editingIdx).value < old(|records|) ==>
        var i := old(editingIdx).value;
        var edited := ApplyEdit(old(records)[i], form, selectedAdminPosition);
        && records == old(records)[i := edited]
        && records[i].position == old(records)[i].position
        && editingIdx == None
        && (!IsConfigured(endpoint) ==> store.sheetsCache == Upsert(old(store.sheetsCache), edited))
        && (IsConfigured(endpoint) ==> store.sheetsCache == old(store.sheetsCache))
        && outcome == Toast(if IsConfigured(endpoint) && sendFails then "Saved locally — sync pending" else "Record saved")
    {
      if editingIdx.None? {
        return NotEditing;
      }
      var i := editingIdx.value;
      if i >= |records| {
        return StaleIndex;
      }
      var edited := ApplyEdit(records[i], form, selectedAdminPosition);
      records := records[i := edited];
      var failed := PushRecordToSheets(edited, sendFails);
      outcome := Toast(if failed then "Saved locally — sync pending" else "Record saved");
      CloseModal();
    }

    /**
     * `deleteRecord`: remove exactly the row being edited from the table,
     * delete its `ref` (offline: from the mirror) and close the dialogs.
     */
    method DeleteRecord(sendFails: bool) returns (outcome: DialogOutcome)
      modifies this`records, this`editingIdx, store`sheetsCache
      ensures old(editingIdx).None? ==> outcome == NotEditing && unchanged(this) && unchanged(store)
      ensures old(editingIdx).Some? && old(editingIdx).value >= old(|records|) ==>
        outcome == StaleIndex && unchanged(this) && unchanged(store)
      ensures old(editingIdx).Some? && old(editingIdx).value < old(|records|) ==>
        var i := old(editingIdx).value;
        && records == RemoveAt(old(records), i)
        && editingIdx == None
        && (!IsConfigured(endpoint) ==> store.sheetsCache == RemoveByRef(old(store.sheetsCache), old(records)[i].ref))
        && (IsConfigured(endpoint) ==> store.sheetsCache == old(store.sheetsCache))
        && outcome == Toast(if IsConfigured(endpoint) && sendFails then "Deleted locally — sync pending" else "Record deleted")
    {
      if editingIdx.None? {
        return NotEditing;
      }
      var i := editingIdx.value;
      if i >= |records| {
        return StaleIndex;
      }
      var ref := records[i].ref;
      records := RemoveAt(records, i);
      var failed := DeleteRecordFromSheets(ref, sendFails);
      outcome := Toast(if failed then "Deleted locally — sync pending" else "Record deleted");
      CloseModal();
    }

    /** `checkAuth`: the signed-in admin's name, or `None` when the page must send the visitor to the login page. */
    method CheckAuth() returns (user: Option<string>)
      ensures store.adminSession.None? <==> user.None?
      ensures store.adminSession.Some? ==> user == Some(store.adminSession.value.username)
    {
      match store.adminSession
      case None => user := None;
      case Some(session) => user := Some(session.username);
    }

    /** `logout`: stop polling and drop the session. */
    method Logout()
      modifies this`polling, store`adminSession
      ensures !polling && store.adminSession == None
    {
      StopPolling();
      store.adminSession := None;
    }
  }
}
