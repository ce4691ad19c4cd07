/**
 * The browser's `localStorage` as the pages use it: one field per key, each
 * holding the value the page last stored under it. A key never written reads
 * as empty, which is what `JSON.parse(localStorage.getItem(k) || '[]')` gives.
 */
module Storage {
  import opened Wrappers
  import opened Records

  class LocalStore {
    /** `sheetsCache`: the local mirror of every known record. */
    var sheetsCache: seq<Record>
    /** `submittedKeys`: fingerprints already submitted from this device. */
    var submittedKeys: seq<string>
    /** `adminUsers`: the admin accounts. */
    var adminUsers: seq<User>
    /** `adminSession`: the signed-in admin, if any. */
    var adminSession: Option<Session>
    /** `adminPositionOptions`: the admin tag vocabulary, once it has been saved. */
    var adminPositionOptions: Option<seq<string>>

    /** Storage on a device where nothing has been written yet. */
    constructor ()
      ensures sheetsCache == [] && submittedKeys == [] && adminUsers == []
      ensures adminSession == None && adminPositionOptions == None
    {
      sheetsCache := [];
      submittedKeys := [];
      adminUsers := [];
      adminSession := None;
      adminPositionOptions := None;
    }
  }
}
