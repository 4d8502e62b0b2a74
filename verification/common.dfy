/** Values shared by every handler of the model: optional request fields,
    HTTP-style responses, JavaScript truthiness, and the sequence operations
    (filter, remove-every-occurrence, subsequence) that several handlers use. */
module Common {

  /** Opaque identifier: a MongoDB ObjectId or a client-side session id, as text. */
  type Id = string

  /** A request field or stored field that may be `undefined`. */
  datatype Option<+T> = None | Some(value: T) {
    function GetOr(default: T): T {
      match this
      case Some(v) => v
      case None => default
    }
  }

  /** What a handler sends back: a success status with a body, or an error
      status with the JSON `message` the handler writes. */
  datatype Response<+T> = Ok(status: int, body: T) | Err(status: int, message: string)

  /** One request handled atomically: the response and the store afterwards. */
  datatype Step<+T, +S> = Step(response: Response<T>, state: S)

  /** JavaScript truthiness of an optional number (`undefined` and 0 are falsy). */
  predicate TruthyInt(v: Option<int>) {
    v.Some? && v.value != 0
  }

  /** JavaScript truthiness of an optional string (`undefined` and "" are falsy). */
  predicate TruthyStr(v: Option<string>) {
    v.Some? && v.value != ""
  }

  /** `v || fallback` on optional numbers. */
  function OrInt(v: Option<int>, fallback: Option<int>): (r: Option<int>)
    ensures TruthyInt(v) ==> r == v
    ensures !TruthyInt(v) ==> r == fallback
    ensures TruthyInt(r) <==> TruthyInt(v) || TruthyInt(fallback)
  {
    if TruthyInt(v) then v else fallback
  }

  /** `v || fallback` on optional strings. */
  function OrStr(v: Option<string>, fallback: Option<string>): (r: Option<string>)
    ensures TruthyStr(v) ==> r == v
    ensures !TruthyStr(v) ==> r == fallback
    ensures TruthyStr(r) <==> TruthyStr(v) || TruthyStr(fallback)
  {
    if TruthyStr(v) then v else fallback
  }

  /** `Array.prototype.filter`: the elements satisfying `keep`, in order. */
  function Filter<T(==,!new)>(s: seq<T>, keep: T -> bool): (r: seq<T>)
    ensures |r| <= |s|
    ensures forall x :: x in r <==> x in s && keep(x)
    ensures SubseqOf(r, s)
    ensures forall x :: multiset(r)[x] == if keep(x) then multiset(s)[x] else 0
  {
    if s == [] then []
    else
      var rest := Filter(s[1..], keep);
      assert s == [s[0]] + s[1..];
      assert multiset(s) == multiset{s[0]} + multiset(s[1..]);
      if keep(s[0]) then [s[0]] + rest else rest
  }

  /** `a` is obtained from `b` by deleting elements (relative order kept). */
  predicate SubseqOf<T(==)>(a: seq<T>, b: seq<T>)
    decreases |b|
  {
    if a == [] then true
    else if b == [] then false
    else (a[0] == b[0] && SubseqOf(a[1..], b[1..])) || SubseqOf(a, b[1..])
  }

  /** `xs.filter(y => y !== x)`: drops every occurrence of `x`. */
  function RemoveAll<T(==,!new)>(xs: seq<T>, x: T): (r: seq<T>)
    ensures x !in r
    ensures forall y :: y != x ==> (y in r <==> y in xs)
    ensures forall y :: y != x ==> multiset(r)[y] == multiset(xs)[y]
    ensures SubseqOf(r, xs)
    ensures x !in xs ==> r == xs
  {
    if xs == [] then []
    else
      assert xs == [xs[0]] + xs[1..];
      if xs[0] == x then RemoveAll(xs[1..], x)
      else [xs[0]] + RemoveAll(xs[1..], x)
  }

  /** `includes`-guarded push: appends `x` only when it is not already present. */
  function AddOnce<T(==,!new)>(xs: seq<T>, x: T): (r: seq<T>)
    ensures x in r
    ensures forall y :: y in r <==> y in xs || y == x
    ensures x in xs ==> r == xs
    ensures x !in xs ==> r == xs + [x]
    ensures |r| <= |xs| + 1 && r[..|xs|] == xs
  {
    if x in xs then xs else xs + [x]
  }

  /** No element occurs twice. */
  predicate NoDups<T(==)>(xs: seq<T>) {
    forall i, j :: 0 <= i < j < |xs| ==> xs[i] != xs[j]
  }

  /** Appending a fresh element after removing it is undone by removing it again. */
  lemma {:induction false} RemoveAllAppended<T(!new)>(xs: seq<T>, x: T)
    requires x !in xs
    ensures RemoveAll(xs + [x], x) == xs
  {
    if xs == [] {
      assert [x][1..] == [];
    } else {
      assert (xs + [x])[1..] == xs[1..] + [x];
      RemoveAllAppended(xs[1..], x);
    }
  }

  /** Removing every occurrence keeps a duplicate-free list duplicate-free. */
  lemma {:induction false} RemoveAllNoDups<T(!new)>(xs: seq<T>, x: T)
    requires NoDups(xs)
    ensures NoDups(RemoveAll(xs, x))
  {
    if xs != [] {
      assert NoDups(xs[1..]) by {
        forall i, j | 0 <= i < j < |xs[1..]| ensures xs[1..][i] != xs[1..][j] {
          assert xs[1..][i] == xs[i + 1] && xs[1..][j] == xs[j + 1];
        }
      }
      RemoveAllNoDups(xs[1..], x);
      if xs[0] != x {
        var t := RemoveAll(xs[1..], x);
        assert xs[0] !in t by {
          assert xs[0] !in xs[1..] by {
            forall j | 0 <= j < |xs[1..]| ensures xs[1..][j] != xs[0] {
              assert xs[1..][j] == xs[j + 1];
            }
          }
        }
        assert RemoveAll(xs, x) == [xs[0]] + t;
        forall i, j | 0 <= i < j < |[xs[0]] + t| ensures ([xs[0]] + t)[i] != ([xs[0]] + t)[j] {
          if i == 0 {
            assert ([xs[0]] + t)[j] == t[j - 1];
          } else {
            assert ([xs[0]] + t)[i] == t[i - 1] && ([xs[0]] + t)[j] == t[j - 1];
          }
        }
      }
    }
  }
}
