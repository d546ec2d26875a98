/**
 * Identifiers and the parts of the `users` collection that the views read,
 * with the two JavaScript idioms the views use to turn a possibly missing
 * user field into display text.
 */
module Common {

  datatype Option<+T> = None | Some(value: T)

  /** The authentication principal's identifier (`user.uid`). */
  type Uid = string

  /** A document identifier assigned by the store (`doc.id`). */
  type Id = string

  /** A document of the `users` collection; a field the document lacks is `None`. */
  datatype UserDoc = UserDoc(firstName: Option<string>, lastName: Option<string>)

  /** `field || fallback` on a string field: a missing or empty field gives the fallback. */
  function OrElse(field: Option<string>, fallback: string): (r: string)
    ensures field.Some? && field.value != "" ==> r == field.value
    ensures field.None? || field.value == "" ==> r == fallback
    ensures r == "" ==> fallback == ""
  {
    match field
    case Some(v) => if v != "" then v else fallback
    case None => fallback
  }

  /** `${field}` in a template literal: a missing field is spelled "undefined". */
  function Interpolated(field: Option<string>): (r: string)
    ensures field.Some? ==> r == field.value
    ensures field.None? ==> r == "undefined"
  {
    match field
    case Some(v) => v
    case None => "undefined"
  }
}
