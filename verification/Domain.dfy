/** The values that flow between the parts of the connection lifecycle. */
module Domain {

  type ClientId = string
  type AccountId = string
  type OrgId = string

  datatype Option<+T> = None | Some(value: T)

  /** A decoded JSON document: what `interface{}` holds after unmarshalling. */
  datatype Json =
    | Null
    | Bool(b: bool)
    | Number(n: int)
    | Text(s: string)
    | Array(items: seq<Json>)
    | Object(fields: map<string, Json>)

  /** The columns of a row that come from the client's own messages. */
  datatype MessageColumns = MessageColumns(
    id: string,
    sent: int,
    dispatchers: Json,
    tags: Json,
    facts: Json)

  /** What a tenant lookup returns: three values and an error. */
  datatype Answer = Answer(identity: string, account: AccountId, org: OrgId, error: Option<string>)

  /** The argument of `Register`. */
  datatype ClientState = ClientState(
    client: ClientId,
    account: AccountId,
    org: OrgId,
    message: MessageColumns)

  /** One row of the `connections` table. */
  datatype Row = Row(
    client: ClientId,
    account: AccountId,
    org: OrgId,
    message: MessageColumns,
    staleTime: int,
    lookupTime: Option<int>,
    failures: nat)

  /** PostgreSQL's jsonb operator `?`: a top-level key, array element or the string itself. */
  predicate HasKey(j: Json, key: string) {
    match j
    case Object(fields) => key in fields
    case Array(items) => Text(key) in items
    case Text(s) => s == key
    case _ => false
  }

  /** A key is found at the top level only. */
  lemma HasKeyAtTopLevel(fields: map<string, Json>, items: seq<Json>, s: string, key: string)
    ensures HasKey(Object(fields), key) <==> key in fields
    ensures HasKey(Array(items), key) <==> exists i :: 0 <= i < |items| && items[i] == Text(key)
    ensures HasKey(Text(s), key) <==> s == key
    ensures !HasKey(Null, key)
  {
  }

  lemma SubsetSize<T>(a: set<T>, b: set<T>)
    requires a <= b
    ensures |a| <= |b|
  {
    if a != {} {
      var x :| x in a;
      SubsetSize(a - {x}, b - {x});
    }
  }

  lemma DifferenceSize<T>(a: set<T>, b: set<T>)
    requires b <= a
    ensures |a - b| == |a| - |b|
  {
    assert a == (a - b) + b;
  }

  /** What holds goes on holding until something ends it. */
  lemma {:induction false} HoldsUntil(holds: int -> bool, ends: int -> bool, i: nat, n: nat)
    requires i <= n && holds(i)
    requires forall k :: i <= k < n && holds(k) ==> holds(k + 1) || ends(k)
    ensures holds(n) || exists k :: i <= k < n && ends(k)
  {
    if i < n { HoldsUntil(holds, ends, i, n - 1); }
  }
}
