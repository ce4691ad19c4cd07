/**
 * The public submission page: required-field validation, the name
 * fingerprint, the two-cache duplicate guard, the fields stamped onto a new
 * record, and the optimistic write to the local mirror.
 */
module Client {
  import opened Wrappers
  import opened Strings
  import opened Seqs
  import opened Records
  import opened Storage
  import opened Remote

  /** The six text inputs of the form, as typed. */
  datatype FormInput = FormInput(
    lastName: string,
    firstName: string,
    middleName: string,
    residentialAddress: string,
    estabName: string,
    estabAddress: string)

  /** The page's `state` object: the radio and toggle choices, each `null` until made. */
  datatype Selections = Selections(
    gender: Option<string>,
    appType: Option<string>,
    certType: Option<string>,
    lost: Option<string>,
    position: Option<string>)

  /** The fields that can be flagged as missing (each has its `err-<id>` message). */
  datatype Field =
    | LastName | FirstName | ResidentialAddress | EstabName | EstabAddress
    | Gender | AppType | CertType | Position
    | Lost

  /** The required text inputs, in the order they are checked. */
  const RequiredInputs: seq<Field> := [LastName, FirstName, ResidentialAddress, EstabName, EstabAddress]

  /** The required radio groups, in the order they are checked. */
  const RequiredChoices: seq<Field> := [Gender, AppType, CertType, Position]

  /**
   * Whether submitting flags field `f`: a text input that is blank after
   * trimming, a radio group whose value is falsy, or a lost-certificate toggle
   * that is still `null` (a strict `=== null` test).
   */
  predicate Missing(form: FormInput, sel: Selections, f: Field) {
    match f
    case LastName => Trim(form.lastName) == ""
    case FirstName => Trim(form.firstName) == ""
    case ResidentialAddress => Trim(form.residentialAddress) == ""
    case EstabName => Trim(form.estabName) == ""
    case EstabAddress => Trim(form.estabAddress) == ""
    case Gender => !Truthy(sel.gender)
    case AppType => !Truthy(sel.appType)
    case CertType => !Truthy(sel.certType)
    case Position => !Truthy(sel.position)
    case Lost => sel.lost.None?
  }

  /** The form passes validation: no field is missing. */
  predicate Complete(form: FormInput, sel: Selections) {
    forall f :: !Missing(form, sel, f)
  }

  /** Validation passes exactly when the five text inputs are non-blank, the four groups are set and the toggle is not null. */
  lemma CompleteIff(form: FormInput, sel: Selections)
    ensures Complete(form, sel) <==>
      && Trim(form.lastName) != "" && Trim(form.firstName) != ""
      && Trim(form.residentialAddress) != "" && Trim(form.estabName) != ""
      && Trim(form.estabAddress) != ""
      && Truthy(sel.gender) && Truthy(sel.appType) && Truthy(sel.certType) && Truthy(sel.position)
      && sel.lost.Some?
  {
    if Complete(form, sel) {
      assert !Missing(form, sel, LastName) && !Missing(form, sel, FirstName);
      assert !Missing(form, sel, ResidentialAddress) && !Missing(form, sel, EstabName);
      assert !Missing(form, sel, EstabAddress) && !Missing(form, sel, Lost);
      assert !Missing(form, sel, Gender) && !Missing(form, sel, AppType);
      assert !Missing(form, sel, CertType) && !Missing(form, sel, Position);
    } else {
      var f :| Missing(form, sel, f);
    }
  }

  /** Every field, in the order submitting checks them. */
  const CheckOrder: seq<Field> := RequiredInputs + RequiredChoices + [Lost]

  /** The fields of `fields` that submitting flags, in order. */
  function Flagged(form: FormInput, sel: Selections, fields: seq<Field>): (r: seq<Field>)
    ensures |r| <= |fields|
    decreases |fields|
  {
    if fields == [] then []
    else
      var f := fields[|fields| - 1];
      Flagged(form, sel, fields[..|fields| - 1]) + (if Missing(form, sel, f) then [f] else [])
  }

  /** A field is flagged exactly when it is one of those checked and it is missing. */
  lemma {:induction false} FlaggedMembers(form: FormInput, sel: Selections, fields: seq<Field>, f: Field)
    ensures f in Flagged(form, sel, fields) <==> f in fields && Missing(form, sel, f)
    decreases |fields|
  {
    if fields != [] {
      var init := fields[..|fields| - 1];
      FlaggedMembers(form, sel, init, f);
      assert fields == init + [fields[|fields| - 1]];
    }
  }

  /** Checking distinct fields flags each at most once. */
  lemma {:induction false} FlaggedDistinct(form: FormInput, sel: Selections, fields: seq<Field>)
    requires NoDuplicates(fields)
    ensures NoDuplicates(Flagged(form, sel, fields))
    decreases |fields|
  {
    if fields != [] {
      var init := fields[..|fields| - 1];
      var last := fields[|fields| - 1];
      assert NoDuplicates(init);
      FlaggedDistinct(form, sel, init);
      FlaggedMembers(form, sel, init, last);
      assert last !in init;
    }
  }

  /** Checking two lists one after the other flags the concatenation. */
  lemma {:induction false} FlaggedAppend(form: FormInput, sel: Selections, a: seq<Field>, b: seq<Field>)
    ensures Flagged(form, sel, a + b) == Flagged(form, sel, a) + Flagged(form, sel, b)
    decreases |b|
  {
    if b == [] {
      assert a + b == a;
    } else {
      var init := b[..|b| - 1];
      assert (a + b)[..|a + b| - 1] == a + init;
      FlaggedAppend(form, sel, a, init);
    }
  }

  /** Nothing is flagged exactly when the form is complete. */
  lemma NothingFlaggedIffComplete(form: FormInput, sel: Selections)
    ensures Flagged(form, sel, CheckOrder) == [] <==> Complete(form, sel)
  {
    if Complete(form, sel) {
      var r := Flagged(form, sel, CheckOrder);
      if r != [] {
        FlaggedMembers(form, sel, CheckOrder, r[0]);
      }
    } else {
      var f :| Missing(form, sel, f);
      EveryFieldChecked(f);
      FlaggedMembers(form, sel, CheckOrder, f);
    }
  }

  /** Each field is checked: it is one of the text inputs, the radio groups, or the lost toggle. */
  lemma EveryFieldChecked(f: Field)
    ensures f in CheckOrder
  {
    match f
    case LastName => assert CheckOrder[0] == f;
    case FirstName => assert CheckOrder[1] == f;
    case ResidentialAddress => assert CheckOrder[2] == f;
    case EstabName => assert CheckOrder[3] == f;
    case EstabAddress => assert CheckOrder[4] == f;
    case Gender => assert CheckOrder[5] == f;
    case AppType => assert CheckOrder[6] == f;
    case CertType => assert CheckOrder[7] == f;
    case Position => assert CheckOrder[8] == f;
    case Lost => assert CheckOrder[9] == f;
  }

  /**
   * The validation pass of `submitForm`: every required input and group is
   * checked (none stops the others), the missing ones are flagged in order,
   * and `valid` survives only if none is.
   */
  method ValidateForm(form: FormInput, sel: Selections) returns (valid: bool, errors: seq<Field>)
    ensures errors == Flagged(form, sel, CheckOrder)
    ensures valid <==> errors == []
    ensures valid <==> Complete(form, sel)
  {
    valid := true;
    errors := [];
    for i := 0 to |RequiredInputs|
      invariant errors == Flagged(form, sel, RequiredInputs[..i])
      invariant valid <==> errors == []
    {
      var f := RequiredInputs[i];
      assert RequiredInputs[..i + 1][..i] == RequiredInputs[..i];
      if Missing(form, sel, f) {
        errors := errors + [f];
        valid := false;
      }
    }
    assert RequiredInputs[..|RequiredInputs|] == RequiredInputs;
    for i := 0 to |RequiredChoices|
      invariant errors == Flagged(form, sel, RequiredInputs) + Flagged(form, sel, RequiredChoices[..i])
      invariant valid <==> errors == []
    {
      var f := RequiredChoices[i];
      assert RequiredChoices[..i + 1][..i] == RequiredChoices[..i];
      if Missing(form, sel, f) {
        errors := errors + [f];
        valid := false;
      }
    }
    assert RequiredChoices[..|RequiredChoices|] == RequiredChoices;
    if sel.lost.None? {
      errors := errors + [Lost];
      valid := false;
    }
    assert Flagged(form, sel, [Lost]) == if sel.lost.None? then [Lost] else [] by {
      assert [Lost][..0] == [];
    }
    FlaggedAppend(form, sel, RequiredInputs, RequiredChoices);
    FlaggedAppend(form, sel, RequiredInputs + RequiredChoices, [Lost]);
    NothingFlaggedIffComplete(form, sel);
  }

  /** The flagged fields are exactly the missing ones, each once. */
  lemma ValidationErrorsMeaning(form: FormInput, sel: Selections, f: Field)
    ensures f in Flagged(form, sel, CheckOrder) <==> Missing(form, sel, f)
    ensures NoDuplicates(Flagged(form, sel, CheckOrder))
  {
    EveryFieldChecked(f);
    FlaggedMembers(form, sel, CheckOrder, f);
    FlaggedDistinct(form, sel, CheckOrder);
  }

  /** The record built from a validated form: text inputs trimmed, choices copied, no system fields yet. */
  function BuildRecord(form: FormInput, sel: Selections, timestamp: string): (r: Record)
    ensures r.lastName == Trim(form.lastName) && r.firstName == Trim(form.firstName)
    ensures r.middleName == Trim(form.middleName)
    ensures r.ref == None && r.status == None
  {
    Record(
      timestamp,
      Trim(form.lastName),
      Trim(form.firstName),
      Trim(form.middleName),
      sel.gender.GetOr(""),
      Trim(form.residentialAddress),
      sel.appType.GetOr(""),
      sel.certType.GetOr(""),
      sel.lost.GetOr(""),
      sel.position.GetOr(""),
      Trim(form.estabName),
      Trim(form.estabAddress),
      None, None, None, None)
  }

  // ----- The name fingerprint -----

  /** `makeDupKey`: the three names joined by `|`, lower-cased, then trimmed as a whole. */
  function DupKey(r: Record): string {
    Trim(Lower(r.lastName + "|" + r.firstName + "|" + r.middleName))
  }

  /** Records whose names agree ignoring letter case have the same fingerprint. */
  lemma DupKeyIgnoresCase(a: Record, b: Record)
    requires Lower(a.lastName) == Lower(b.lastName)
    requires Lower(a.firstName) == Lower(b.firstName)
    requires Lower(a.middleName) == Lower(b.middleName)
    ensures DupKey(a) == DupKey(b)
  {
    LowerAppend(a.lastName + "|" + a.firstName, "|" + a.middleName);
    LowerAppend(a.lastName + "|", a.firstName);
    LowerAppend(a.lastName, "|");
    LowerAppend("|", a.middleName);
    LowerAppend(b.lastName + "|" + b.firstName, "|" + b.middleName);
    LowerAppend(b.lastName + "|", b.firstName);
    LowerAppend(b.lastName, "|");
    LowerAppend("|", b.middleName);
    assert a.lastName + "|" + a.firstName + "|" + a.middleName
      == (a.lastName + "|" + a.firstName) + ("|" + a.middleName);
    assert b.lastName + "|" + b.firstName + "|" + b.middleName
      == (b.lastName + "|" + b.firstName) + ("|" + b.middleName);
  }

  /**
   * Two form entries whose names agree after trimming each input and
   * ignoring case produce records with the same fingerprint (each input is
   * trimmed when the record is built).
   */
  lemma FormFingerprint(f1: FormInput, s1: Selections, t1: string, f2: FormInput, s2: Selections, t2: string)
    requires Lower(Trim(f1.lastName)) == Lower(Trim(f2.lastName))
    requires Lower(Trim(f1.firstName)) == Lower(Trim(f2.firstName))
    requires Lower(Trim(f1.middleName)) == Lower(Trim(f2.middleName))
    ensures DupKey(BuildRecord(f1, s1, t1)) == DupKey(BuildRecord(f2, s2, t2))
  {
    DupKeyIgnoresCase(BuildRecord(f1, s1, t1), BuildRecord(f2, s2, t2));
  }

  /**
   * The fingerprint trims only the ends of the joined string: a trailing
   * space on the last name of a stored record is kept, so `"Cruz "` and
   * `"Cruz"` give different fingerprints.
   */
  lemma InnerSpaceIsSignificant(r: Record, last: string)
    requires last != [] && !IsSpace(last[0])
    requires r.middleName != [] && !IsSpace(r.middleName[|r.middleName| - 1])
    ensures DupKey(r.(lastName := last + " ")) != DupKey(r.(lastName := last))
  {
    var m := r.middleName;
    var padded := last + " " + "|" + r.firstName + "|" + m;
    var plain := last + "|" + r.firstName + "|" + m;
    assert padded[0] == last[0] && plain[0] == last[0];
    assert padded[|padded| - 1] == m[|m| - 1] && plain[|plain| - 1] == m[|m| - 1];
    LowerCharKeepsSpace(last[0]);
    LowerCharKeepsSpace(m[|m| - 1]);
    TrimNoOp(Lower(padded));
    TrimNoOp(Lower(plain));
    assert |Lower(padded)| == |Lower(plain)| + 1;
  }

  // ----- The duplicate guard -----

  /** Position `i` holds the first record of `cache` with fingerprint `key`. */
  predicate IsFirstMatch(cache: seq<Record>, key: string, i: int) {
    0 <= i < |cache| && DupKey(cache[i]) == key
    && forall j :: 0 <= j < i ==> DupKey(cache[j]) != key
  }

  /** Some record of `cache` has fingerprint `key`. */
  predicate HasKey(cache: seq<Record>, key: string) {
    exists i :: 0 <= i < |cache| && DupKey(cache[i]) == key
  }

  /** `cache.find(r => makeDupKey(r) === key)`. */
  function FindByKey(cache: seq<Record>, key: string): (m: Option<Record>)
    ensures m.None? <==> !HasKey(cache, key)
    ensures forall i :: IsFirstMatch(cache, key, i) ==> m == Some(cache[i])
  {
    var p := (r: Record) => DupKey(r) == key;
    var found := FindIndex(cache, p);
    assert forall j :: 0 <= j < |cache| ==> (p(cache[j]) <==> DupKey(cache[j]) == key);
    if found.None? then None else Some(cache[found.value])
  }

  /** The outcome of the duplicate check of `submitForm`. */
  datatype DupDecision =
    | DeviceBlock(shown: Record)       // fingerprint already submitted from this device
    | CrossDeviceBlock(shown: Record)  // fingerprint found only in the mirror
    | NoDuplicate

  /**
   * The two-cache check: the device's key list first, then the mirror. A
   * block on the device list shows the first mirror record with the key, or
   * the candidate itself when the mirror has none.
   */
  function CheckDuplicate(keys: seq<string>, cache: seq<Record>, candidate: Record): (d: DupDecision)
    ensures d.DeviceBlock? <==> DupKey(candidate) in keys
    ensures d.CrossDeviceBlock? <==> DupKey(candidate) !in keys && HasKey(cache, DupKey(candidate))
    ensures d.NoDuplicate? <==> DupKey(candidate) !in keys && !HasKey(cache, DupKey(candidate))
    ensures d.DeviceBlock? && !HasKey(cache, DupKey(candidate)) ==> d.shown == candidate
    ensures !d.NoDuplicate? ==> forall i :: IsFirstMatch(cache, DupKey(candidate), i) ==> d.shown == cache[i]
  {
    var key := DupKey(candidate);
    if key in keys then DeviceBlock(FindByKey(cache, key).GetOr(candidate))
    else match FindByKey(cache, key)
      case Some(m) => CrossDeviceBlock(m)
      case None => NoDuplicate
  }

  /** After a cross-device block has registered the key, the same submission is blocked on the device list, showing the same record. */
  lemma CrossDeviceThenDeviceBlock(keys: seq<string>, cache: seq<Record>, candidate: Record)
    requires CheckDuplicate(keys, cache, candidate).CrossDeviceBlock?
    ensures CheckDuplicate(keys + [DupKey(candidate)], cache, candidate)
         == DeviceBlock(CheckDuplicate(keys, cache, candidate).shown)
  {
  }

  // ----- The reference number -----

  /** A base-36 digit, upper case. */
  function Digit36(d: nat): (c: char)
    requires d < 36
    ensures '0' <= c <= '9' || 'A' <= c <= 'Z'
  {
    if d < 10 then ('0' as int + d) as char else ('A' as int + d - 10) as char
  }

  /** The value of a base-36 digit (either case maps letters to 10..35). */
  function DigitValue36(c: char): nat {
    if '0' <= c <= '9' then c as int - '0' as int
    else if 'A' <= c <= 'Z' then c as int - 'A' as int + 10
    else if 'a' <= c <= 'z' then c as int - 'a' as int + 10
    else 0
  }

  /** `n.toString(36).toUpperCase()`. */
  function Base36(n: nat): (s: string)
    ensures |s| >= 1
    ensures forall i :: 0 <= i < |s| ==> '0' <= s[i] <= '9' || 'A' <= s[i] <= 'Z'
    ensures n > 0 ==> s[0] != '0'
    decreases n
  {
    if n < 36 then [Digit36(n)] else Base36(n / 36) + [Digit36(n % 36)]
  }

  /** Reading a base-36 numeral, most significant digit first. */
  function ParseBase36(s: string): nat
    decreases |s|
  {
    if s == [] then 0 else ParseBase36(s[..|s| - 1]) * 36 + DigitValue36(s[|s| - 1])
  }

  /** The base-36 text of a time stamp determines it: distinct instants give distinct reference numbers. */
  lemma {:induction false} Base36RoundTrip(n: nat)
    ensures ParseBase36(Base36(n)) == n
    decreases n
  {
    var s := Base36(n);
    if n < 36 {
      assert s[..|s| - 1] == [];
    } else {
      Base36RoundTrip(n / 36);
      assert s[..|s| - 1] == Base36(n / 36);
    }
  }

  /** `'ATT-' + Date.now().toString(36).toUpperCase()`, with the clock reading `now` given. */
  function RefNumber(now: nat): (ref: string)
    ensures |ref| > 4 && ref[..4] == "ATT-"
    ensures ParseBase36(ref[4..]) == now
  {
    Base36RoundTrip(now);
    assert ("ATT-" + Base36(now))[4..] == Base36(now);
    "ATT-" + Base36(now)
  }

  /** The fields `finalizeSubmit` stamps onto a new record. */
  function Stamp(record: Record, now: nat): (r: Record)
    ensures DupKey(r) == DupKey(record)
    ensures r.ref == Some(RefNumber(now))
    ensures r.status == Some("Pending")
    ensures r.adminPosition == Some("") && r.healthCertNumber == Some("")
    ensures r.position == record.position && r.timestamp == record.timestamp
    ensures r.(ref := record.ref, status := record.status, adminPosition := record.adminPosition,
               healthCertNumber := record.healthCertNumber) == record
  {
    record.(ref := Some(RefNumber(now)), adminPosition := Some(""), healthCertNumber := Some(""),
            status := Some("Pending"))
  }

  // ----- The optimistic local write -----

  /** What the submission page reports. */
  datatype SubmitOutcome =
    | Invalid(errors: seq<Field>)
    | Blocked(shown: Record)
    | Submitted(refNum: string, connectionIssue: bool)

  /** A freshly submitted person is blocked on the device list next time, and the block shows the new record. */
  lemma {:induction false} ResubmitIsBlocked(keys: seq<string>, cache: seq<Record>, candidate: Record, now: nat, again: Record)
    requires CheckDuplicate(keys, cache, candidate).NoDuplicate?
    requires DupKey(again) == DupKey(candidate)
    ensures CheckDuplicate(AppendIfAbsent(keys, DupKey(candidate)), cache + [Stamp(candidate, now)], again)
         == DeviceBlock(Stamp(candidate, now))
  {
    var key := DupKey(candidate);
    var cache' := cache + [Stamp(candidate, now)];
    assert IsFirstMatch(cache', key, |cache|);
  }

  /**
   * The submission page. `store` is the device's storage and `endpoint` the
   * configured Apps Script URL.
   */
  class ClientPage {
    const store: LocalStore
    const endpoint: string
    /** The radio and toggle choices made so far. */
    var selections: Selections

    constructor (store: LocalStore, endpoint: string)
      ensures this.store == store && this.endpoint == endpoint
      ensures selections == Selections(None, None, None, None, None)
    {
      this.store := store;
      this.endpoint := endpoint;
      selections := Selections(None, None, None, None, None);
    }

    /** `selectRadio(key, value)`: records the choice of one radio group. */
    method SelectRadio(key: Field, value: string)
      requires key in RequiredChoices
      modifies this
      ensures key == Gender ==> selections == old(selections).(gender := Some(value))
      ensures key == AppType ==> selections == old(selections).(appType := Some(value))
      ensures key == CertType ==> selections == old(selections).(certType := Some(value))
      ensures key == Position ==> selections == old(selections).(position := Some(value))
    {
      match key
      case Gender => selections := selections.(gender := Some(value));
      case AppType => selections := selections.(appType := Some(value));
      case CertType => selections := selections.(certType := Some(value));
      case Position => selections := selections.(position := Some(value));
    }

    /** `setToggle('lost', value)`. */
    method SetLost(value: string)
      modifies this
      ensures selections == old(selections).(lost := Some(value))
    {
      selections := selections.(lost := Some(value));
    }

    /** The `state` part of `resetForm`: every choice back to `null`. */
    method ResetSelections()
      modifies this
      ensures selections == Selections(None, None, None, None, None)
    {
      selections := Selections(None, None, None, None, None);
    }

    /** `saveLocalCache`: append the record to the mirror and register its fingerprint once. */
    method SaveLocalCache(record: Record)
      modifies store`sheetsCache, store`submittedKeys
      ensures store.sheetsCache == old(store.sheetsCache) + [record]
      ensures store.submittedKeys == AppendIfAbsent(old(store.submittedKeys), DupKey(record))
    {
      store.sheetsCache := store.sheetsCache + [record];
      var key := DupKey(record);
      if key !in store.submittedKeys {
        store.submittedKeys := store.submittedKeys + [key];
      }
    }

    /**
     * `finalizeSubmit`: stamp the record, then save it locally whether the
     * endpoint is unconfigured, the send succeeds, or it fails (`sendFails`);
     * only a failed send is reported as a connection issue.
     */
    method FinalizeSubmit(record: Record, now: nat, sendFails: bool) returns (refNum: string, connectionIssue: bool)
      modifies store`sheetsCache, store`submittedKeys
      ensures refNum == RefNumber(now)
      ensures connectionIssue <==> IsConfigured(endpoint) && sendFails
      ensures store.sheetsCache == old(store.sheetsCache) + [Stamp(record, now)]
      ensures store.submittedKeys == AppendIfAbsent(old(store.submittedKeys), DupKey(record))
    {
      var stamped := Stamp(record, now);
      refNum := RefNumber(now);
      if !IsConfigured(endpoint) {
        SaveLocalCache(stamped);
        connectionIssue := false;
        return;
      }
      SaveLocalCache(stamped);
      connectionIssue := sendFails;
    }

    /**
     * `submitForm`: validate, build the record, run the duplicate guard and
     * finalize only when neither cache knows the fingerprint.
     */
    method SubmitForm(form: FormInput, timestamp: string, now: nat, sendFails: bool) returns (outcome: SubmitOutcome)
      modifies store`sheetsCache, store`submittedKeys
      ensures outcome.Invalid? <==> !Complete(form, selections)
      ensures outcome.Invalid? ==>
        && outcome.errors == Flagged(form, selections, CheckOrder)
        && store.sheetsCache == old(store.sheetsCache) && store.submittedKeys == old(store.submittedKeys)
      ensures !outcome.Invalid? ==>
        var rec := BuildRecord(form, selections, timestamp);
        match CheckDuplicate(old(store.submittedKeys), old(store.sheetsCache), rec)
        case DeviceBlock(shown) =>
          outcome == Blocked(shown)
          && store.sheetsCache == old(store.sheetsCache) && store.submittedKeys == old(store.submittedKeys)
        case CrossDeviceBlock(shown) =>
          outcome == Blocked(shown)
          && store.sheetsCache == old(store.sheetsCache)
          && store.submittedKeys == old(store.submittedKeys) + [DupKey(rec)]
        case NoDuplicate =>
          outcome == Submitted(RefNumber(now), IsConfigured(endpoint) && sendFails)
          && store.sheetsCache == old(store.sheetsCache) + [Stamp(rec, now)]
          && store.submittedKeys == old(store.submittedKeys) + [DupKey(rec)]
    {
      var valid, errors := ValidateForm(form, selections);
      if !valid {
        return Invalid(errors);
      }
      var record := BuildRecord(form, selections, timestamp);
      var localKeys := store.submittedKeys;
      var dupKey := DupKey(record);
      if dupKey in localKeys {
        var cached := store.sheetsCache;
        var found := FindByKey(cached, dupKey);
        assert CheckDuplicate(localKeys, cached, record) == DeviceBlock(found.GetOr(record));
        return Blocked(found.GetOr(record));
      }
      var sheetMatch := FindByKey(store.sheetsCache, dupKey);
      if sheetMatch.Some? {
        assert CheckDuplicate(localKeys, store.sheetsCache, record) == CrossDeviceBlock(sheetMatch.value);
        localKeys := localKeys + [dupKey];
        store.submittedKeys := localKeys;
        return Blocked(sheetMatch.value);
      }
      assert CheckDuplicate(localKeys, store.sheetsCache, record) == NoDuplicate;
      var refNum, issue := FinalizeSubmit(record, now, sendFails);
      return Submitted(refNum, issue);
    }
  }
}
