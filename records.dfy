/** The records the deployment finder reads and writes: log messages from the
    store, the search descriptor, and the serialized message given as input.
    JSON leaf values are modelled as strings; an absent field reads as `undefined`. */
module Records {

  datatype Option<T> = None | Some(value: T)

  /** A `content` object: field name to value. A name not in the map is `undefined`. */
  type Content = map<string, string>

  /** Reading `content[name]`, which is `undefined` when the field is absent. */
  function Field(c: Content, name: string): Option<string>
  {
    if name in c then Some(c[name]) else None
  }

  /** JavaScript truthiness of a string that may be `undefined`: only `undefined` and "" are falsy. */
  predicate Truthy(s: Option<string>)
  {
    s.Some? && s.value != ""
  }

  /** JavaScript `a || b` on two possibly undefined strings. */
  function Or(a: Option<string>, b: Option<string>): (r: Option<string>)
    ensures r == a || r == b
    ensures Truthy(r) <==> Truthy(a) || Truthy(b)
  {
    if Truthy(a) then a else b
  }

  /** The `value` of a log message as the store delivers it. */
  datatype MsgValue = MsgValue(author: string, timestamp: int, content: Content)

  /** A log message (`{key, value}`), as found in the stream and returned by the matcher. */
  datatype Msg = Msg(key: string, value: MsgValue)

  /** The `value` of the input document; `others` holds its remaining fields. */
  datatype DocValue = DocValue(author: Option<string>, content: Option<Content>, others: map<string, string>)

  /** The input document (a serialized message) and the output record built from it. */
  datatype Doc = Doc(key: Option<string>, value: Option<DocValue>, others: map<string, string>)

  /** The empty object `{}` that stands for the input when no file is given. */
  const EmptyDoc := Doc(None, None, map[])

  /** The search descriptor `searchKv`: `{value: {author, content: {type, repository, repositoryBranch}}}`. */
  datatype SearchKv = SearchKv(author: string, contentType: string, repository: string, repositoryBranch: string)
}
