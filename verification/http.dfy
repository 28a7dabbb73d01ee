/** The values that cross the boundary to the network and to the browser:
    JSON documents, outgoing requests, what `fetch` settled with, and settled
    promises. `fetch` itself is not modelled: its outcome is an input. */
module Http {
  import opened Common

  /** A JSON document as `response.json()` yields it (numbers are integers
      here). */
  datatype Json =
    | JNull
    | JBool(b: bool)
    | JNumber(n: int)
    | JString(s: string)
    | JArray(items: seq<Json>)
    | JObject(members: seq<(string, Json)>)

  /** Reading property `key` of a parsed document, as `j[key]` does: None
      (undefined) on anything but an object or when the key is absent; of
      repeated keys `JSON.parse` keeps the last. */
  function Member(j: Json, key: string): (r: Option<Json>)
    ensures r.Some? <==> j.JObject? && exists i :: 0 <= i < |j.members| && j.members[i].0 == key
    ensures r.Some? ==>
      exists i :: (0 <= i < |j.members| && j.members[i] == (key, r.value)
        && forall k :: i < k < |j.members| ==> j.members[k].0 != key)
    decreases if j.JObject? then |j.members| else 0
  {
    if !j.JObject? || |j.members| == 0 then None
    else
      var n := |j.members|;
      var last := j.members[n - 1];
      if last.0 == key then
        assert j.members[n - 1] == (key, last.1);
        Some(last.1)
      else
        var init := j.members[..n - 1];
        var r := Member(JObject(init), key);
        assert forall i :: 0 <= i < n - 1 ==> init[i] == j.members[i];
        r
  }

  /** Whether reading a property of this value throws: `null` and
      `undefined` have no properties. */
  predicate Nullish(v: Option<Json>) {
    v.None? || v.value.JNull?
  }

  datatype Header = Header(name: string, value: string)

  /** An outgoing `fetch(url, { method, headers, body })`; `verb` is its method. */
  datatype Request = Request(verb: string, url: string, headers: seq<Header>, body: string)

  /** How a `fetch` settled: rejected (the network failed), or with a
      response; `body` is None when `response.json()` cannot parse it, and
      also when it parses to a value of another shape than `B` (a token
      body that is JSON `null`, say, whose fields cannot be read). */
  datatype Fetched<B> =
    | FetchFailed
    | Response(ok: bool, statusText: string, body: Option<B>)

  /** The error a rejected promise carries. */
  datatype Error =
    | NetworkError
    | InvalidJson
    | ApiError(message: string)

  /** A settled promise. */
  datatype Outcome<T> = Resolved(value: T) | Rejected(error: Error)
}
