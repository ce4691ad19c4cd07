/**
 * The entities the three pages exchange through the browser's storage:
 * attendance records, admin accounts and the admin session.
 */
module Records {
  import opened Wrappers

  /**
   * One attendance submission. The identity and application fields are the
   * strings the form produces. The four system fields may be missing on a
   * record that comes from the sheet, so they are optional (`None` is
   * JavaScript's `undefined`).
   */
  datatype Record = Record(
    timestamp: string,
    lastName: string,
    firstName: string,
    middleName: string,
    gender: string,
    residentialAddress: string,
    applicationType: string,
    healthCertificateType: string,
    lostCertificate: string,
    position: string,
    establishmentName: string,
    establishmentAddress: string,
    ref: Option<string>,
    status: Option<string>,
    adminPosition: Option<string>,
    healthCertNumber: Option<string>)

  /** JavaScript truthiness of an optional string: present and not empty. */
  predicate Truthy(o: Option<string>) {
    o.Some? && o.value != ""
  }

  /** `(v || '')`: the text of an optional string, empty when it is absent. */
  function TextOf(o: Option<string>): (t: string)
    ensures Truthy(o) ==> t == o.value
    ensures !Truthy(o) ==> t == ""
  {
    o.GetOr("")
  }

  /** An entry of the stored admin account list (the password is kept in plain text). */
  datatype User = User(username: string, password: string)

  /** The stored admin session. */
  datatype Session = Session(username: string, loginTime: string)
}
