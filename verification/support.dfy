/** Shared vocabulary: optional values, HTTP-style responses, identifiers,
    and the sequence filters the routes and the client use. */
module Support {

  datatype Option<+T> = None | Some(value: T) {
    function GetOr(default: T): T {
      match this
      case Some(v) => v
      case None => default
    }
  }

  /** Document identifiers are handed out by the store, in increasing order. */
  type Id = nat

  /** Timestamps, in milliseconds; never derived from a clock in this model. */
  type Time = int

  /** Calendar-day key of a habit log, `YYYY-MM-DD`, supplied by the caller. */
  type DayKey = string

  /** What a route sends back as its JSON body. */
  datatype Body<+T> =
    | Doc(doc: T)            // the document itself
    | Docs(docs: seq<T>)     // a list of documents
    | NullDoc                // `null`
    | Message(text: string)  // `{ message: text }`
    | DriverError            // `{ message: err.message }` with the database driver's own text

  datatype Response<+T> = Response(status: int, body: Body<T>)

  /** The elements of `s` that satisfy `p`, in their original order. */
  function Filter<T>(s: seq<T>, p: T -> bool): (r: seq<T>)
    ensures |r| <= |s|
    ensures forall x :: x in r ==> x in s && p(x)
    ensures forall x :: x in s && p(x) ==> x in r
    ensures Subsequence(r, s)
  {
    if s == [] then []
    else if p(s[0]) then
      var rest := Filter(s[1..], p);
      assert ([s[0]] + rest)[1..] == rest;
      [s[0]] + rest
    else Filter(s[1..], p)
  }

  /** The elements of `s` that do not satisfy `p`, in their original order. */
  function Reject<T>(s: seq<T>, p: T -> bool): (r: seq<T>)
    ensures |r| <= |s|
    ensures forall x :: x in r ==> x in s && !p(x)
    ensures forall x :: x in s && !p(x) ==> x in r
    ensures Subsequence(r, s)
  {
    if s == [] then []
    else if !p(s[0]) then
      var rest := Reject(s[1..], p);
      assert ([s[0]] + rest)[1..] == rest;
      [s[0]] + rest
    else Reject(s[1..], p)
  }

  /** `r` is obtained from `s` by deleting elements, keeping the order of the rest. */
  ghost predicate Subsequence<T>(r: seq<T>, s: seq<T>)
    decreases |s|
  {
    r == [] ||
    (s != [] && ((r[0] == s[0] && Subsequence(r[1..], s[1..])) || Subsequence(r, s[1..])))
  }

  /** Filtering and rejecting by the same predicate split `s` without loss or overlap. */
  lemma {:induction false} FilterRejectPartition<T>(s: seq<T>, p: T -> bool)
    ensures multiset(Filter(s, p)) + multiset(Reject(s, p)) == multiset(s)
  {
    if s != [] {
      var t := s[1..];
      FilterRejectPartition(t, p);
      assert s == [s[0]] + t;
      if p(s[0]) {
        assert Filter(s, p) == [s[0]] + Filter(t, p);
        assert Reject(s, p) == Reject(t, p);
      } else {
        assert Filter(s, p) == Filter(t, p);
        assert Reject(s, p) == [s[0]] + Reject(t, p);
      }
    }
  }

  /** Filtering an input with no element to drop gives the input back. */
  lemma {:induction false} FilterKeepsAll<T>(s: seq<T>, p: T -> bool)
    requires forall x :: x in s ==> p(x)
    ensures Filter(s, p) == s
  {
    if s != [] {
      FilterKeepsAll(s[1..], p);
      assert s == [s[0]] + s[1..];
    }
  }

  /** The values of `m` stored under the ids below `n`, in increasing id order:
      a collection scan in insertion order. */
  function ValuesInIdOrder<T>(m: map<Id, T>, n: nat): (r: seq<T>)
    ensures |r| <= n
    ensures forall x :: x in r ==> exists id :: id in m && id < n && m[id] == x
    ensures forall id :: id in m && id < n ==> m[id] in r
  {
    if n == 0 then []
    else
      var prefix := ValuesInIdOrder(m, n - 1);
      if n - 1 in m then prefix + [m[n - 1]] else prefix
  }

  /** Filtering distributes over concatenation. */
  lemma {:induction false} FilterAppend<T>(a: seq<T>, b: seq<T>, p: T -> bool)
    ensures Filter(a + b, p) == Filter(a, p) + Filter(b, p)
  {
    if a != [] {
      FilterAppend(a[1..], b, p);
      assert (a + b)[1..] == a[1..] + b;
      assert (a + b)[0] == a[0];
    } else {
      assert a + b == b;
    }
  }

  /** How often `x` occurs after filtering: as often as before if it passes, never otherwise. */
  lemma {:induction false} FilterCount<T>(s: seq<T>, p: T -> bool, x: T)
    ensures multiset(Filter(s, p))[x] == if p(x) then multiset(s)[x] else 0
  {
    if s != [] {
      FilterCount(s[1..], p, x);
      assert s == [s[0]] + s[1..];
    }
  }

  /** How often `x` occurs after rejecting: as often as before if it fails, never otherwise. */
  lemma {:induction false} RejectCount<T>(s: seq<T>, p: T -> bool, x: T)
    ensures multiset(Reject(s, p))[x] == if p(x) then 0 else multiset(s)[x]
  {
    if s != [] {
      RejectCount(s[1..], p, x);
      assert s == [s[0]] + s[1..];
    }
  }

  /** Every value of `m` is stored under its own id, and every id is below `n`. */
  predicate Keyed<T>(m: map<Id, T>, idOf: T -> Id, n: nat) {
    forall id :: id in m ==> id < n && idOf(m[id]) == id
  }

  /** In a keyed map, a scan finds a value once if it is stored under its id,
      and never otherwise. */
  lemma {:induction false} ValuesCount<T>(m: map<Id, T>, idOf: T -> Id, n: nat, k: nat, x: T)
    requires Keyed(m, idOf, n) && k <= n
    ensures multiset(ValuesInIdOrder(m, k))[x]
         == if idOf(x) < k && idOf(x) in m && m[idOf(x)] == x then 1 else 0
  {
    if k > 0 {
      ValuesCount(m, idOf, n, k - 1, x);
    }
  }

  /** Scans the ids below `n` one by one and collects what is stored under them. */
  method CollectInIdOrder<T>(m: map<Id, T>, n: nat) returns (r: seq<T>)
    ensures r == ValuesInIdOrder(m, n)
  {
    r := [];
    var id := 0;
    while id < n
      invariant id <= n
      invariant r == ValuesInIdOrder(m, id)
    {
      if id in m {
        r := r + [m[id]];
      }
      id := id + 1;
    }
  }
}
