/** Value types shared by the admin components: optional values, the reply of a
    remote database call, the request a handler issues, the toast it shows, and
    the JavaScript truthiness tests the handlers branch on. */
module Common {

  datatype Option<+T> = None | Some(value: T)

  /** The `{ error }` a database call resolves with: no error, or an error
      object whose `message` may be missing. */
  datatype DbReply = Done | DbError(message: Option<string>)

  /** A write request sent to one table of the backend. */
  datatype Request<+R> =
    | Insert(table: string, row: R)
    | Update(table: string, id: string, row: R)
    | Delete(table: string, id: string)

  /** A toast notification; `destructive` is the error variant. */
  datatype Toast = Toast(title: string, description: string, destructive: bool)

  /** `if (id)` on a `string | null`: null and the empty string are falsy. */
  predicate IsSet(id: Option<string>) {
    id.Some? && id.value != ""
  }

  /** `s || ""` on a possibly missing string field. */
  function OrEmpty(s: Option<string>): (r: string)
    ensures r == "" <==> s.None? || s.value == ""
    ensures s.Some? ==> r == s.value
  {
    if s.Some? then s.value else ""
  }

  /** `n || 0` on a possibly missing integer field. */
  function OrZero(n: Option<int>): (r: int)
    ensures r == 0 <==> n.None? || n.value == 0
    ensures n.Some? ==> r == n.value
  {
    if n.Some? then n.value else 0
  }

  /** `error.message || fallback`: the text of a failed save. */
  function ErrorText(message: Option<string>, fallback: string): (t: string)
    ensures message.Some? && message.value != "" ==> t == message.value
    ensures message.None? || message.value == "" ==> t == fallback
    ensures fallback != "" ==> t != ""
  {
    if message.Some? && message.value != "" then message.value else fallback
  }
}
