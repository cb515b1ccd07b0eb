/** What the handlers read from an HTTP request besides a JSON body: URL query values, the uploaded
    file of a multipart form, and the "overwrite only when given" rule of the update handlers. */
module Requests {
  import opened Text
  import opened FileSystem

  /** The URL's query, first value per key. */
  type Query = map<string, string>

  /** url.Values.Get: the first value, or "" when the key is absent. */
  function QueryValue(q: Query, key: string): (v: string)
    ensures key in q ==> v == q[key]
    ensures key !in q ==> v == ""
  {
    if key in q then q[key] else ""
  }

  /** r.FormFile on one field: no file sent (http.ErrMissingFile), a file that cannot be read (any
      other error), or a file with its client-side name and its bytes. */
  datatype Upload = NoFile | BadFile | File(filename: string, data: Bytes)

  /** An update handler's rule for one text field: the trimmed incoming value replaces the current one
      unless it is empty, in which case the current value stays. */
  function Overwrite(current: string, incoming: string): (r: string)
    ensures TrimSpace(incoming) != "" ==> r == TrimSpace(incoming)
    ensures TrimSpace(incoming) == "" ==> r == current
  {
    var t := TrimSpace(incoming);
    if t != "" then t else current
  }

  /** Sending the same value again changes nothing: the rule is idempotent. */
  lemma OverwriteIdempotent(current: string, incoming: string)
    ensures Overwrite(Overwrite(current, incoming), incoming) == Overwrite(current, incoming)
  {
  }

  /** A value that is only white space never replaces anything, so a field cannot be cleared. */
  lemma OverwriteCannotClear(current: string, incoming: string)
    requires current != ""
    ensures Overwrite(current, incoming) != ""
  {
  }
}
