/** Decoded JSON values, as `json.loads` hands them to the hydrator, and the
    success-or-failure wrapper used for the exceptions the script raises. */
module JsonValue {

  /** A decoded JSON document. Numbers are integers only; the API's
      responses carry no fractional numbers that the model inspects. */
  datatype Json =
    | JNull
    | JBool(b: bool)
    | JNum(n: int)
    | JStr(str: string)
    | JArr(arr: seq<Json>)
    | JObj(obj: map<string, Json>)

  /** `d.get(key)` on a decoded JSON object: a missing key reads as `None`,
      which is the same value a JSON `null` decodes to. */
  function Lookup(m: map<string, Json>, key: string): Json
  {
    if key in m then m[key] else JNull
  }

  /** Storing under one key is seen by `get` on that key only, and removing a
      key reads the same as storing `null` under it. */
  lemma LookupAfterUpdate(m: map<string, Json>, k: string, x: Json, key: string)
    ensures Lookup(m[k := x], key) == if key == k then x else Lookup(m, key)
    ensures Lookup(m - {k}, key) == Lookup(m[k := JNull], key)
  {
  }

  /** Iterating a Python `str` yields its characters as one-character strings. */
  function Chars(s: string): seq<Json>
  {
    seq(|s|, i requires 0 <= i < |s| => JStr([s[i]]))
  }

  /** `"".join(xs)` over a sequence of JSON strings. */
  function Join(xs: seq<Json>): string
  {
    if xs == [] then [] else (if xs[0].JStr? then xs[0].str else []) + Join(xs[1..])
  }

  /** Iterating a string yields one one-character string per character, and
      joining them gives the string back. */
  lemma {:induction false} JoinChars(s: string)
    ensures |Chars(s)| == |s|
    ensures forall i | 0 <= i < |s| :: Chars(s)[i].JStr? && |Chars(s)[i].str| == 1
    ensures Join(Chars(s)) == s
  {
    if s != [] {
      assert Chars(s)[1..] == Chars(s[1..]);
      JoinChars(s[1..]);
    }
  }
}

module Results {

  /** The outcome of a computation that may raise. */
  datatype Result<+T, +E> = Ok(value: T) | Err(error: E)

  /** Evaluates a sequence of computations in order and stops at the first one
      that raises, as a list comprehension or a `for` loop does when its body
      throws: the whole result fails with that first error, otherwise it holds
      every value in order. */
  function Collect<T, E>(rs: seq<Result<T, E>>): (r: Result<seq<T>, E>)
    ensures r.Ok? <==> forall i | 0 <= i < |rs| :: rs[i].Ok?
    ensures r.Ok? ==> |r.value| == |rs| && forall i | 0 <= i < |rs| :: rs[i] == Ok(r.value[i])
    ensures r.Err? ==> exists i | 0 <= i < |rs| ::
                         rs[i] == Err(r.error) && forall j | 0 <= j < i :: rs[j].Ok?
  {
    if |rs| == 0 then Ok([])
    else
      match rs[0]
      case Err(e) => Err(e)
      case Ok(v) =>
        match Collect(rs[1..])
        case Ok(vs) => Ok([v] + vs)
        case Err(e) => Err(e)
  }
}
