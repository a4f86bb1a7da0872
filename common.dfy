/** Shared vocabulary of the medical-records backend: identifiers, timestamps,
    nullable values, the enumerations of the domain, and the few string and
    sequence operations that the repositories' queries are built from. */
module Common {

  /** A `Guid`. The all-zero Guid (`Guid.Empty`) is 0. */
  type Guid = nat
  const Empty: Guid := 0

  /** A `DateTime`, as a count of ticks. */
  type DateTime = int

  /** A nullable value (`T?` in the source). */
  datatype Option<+T> = None | Some(value: T)

  /** `Gender`. The source's enums are plain integers underneath: a request may
      carry a number that is neither `Male` nor `Female`, which is why the
      controllers test for it. */
  datatype Gender = Male | Female | Undefined(code: int)

  datatype Conclusion = Disease | Recovery | Death

  datatype DiagnosisType = Main | Concomitant | Complication

  /** The failures an operation can end in. `KeyNotFound` is the
      `KeyNotFoundException` the code throws on purpose; `NullReference` stands
      for a dereference of a lookup that found nothing (or `.Value` of a null),
      an exception the code does not anticipate; `Diverges` is a recursion that
      never returns. */
  datatype Fault = KeyNotFound | NullReference | Diverges

  datatype Result<+T> = Success(value: T) | Failure(fault: Fault)

  function Min(a: int, b: int): int { if a <= b then a else b }

  /** `p` is a prefix of `s`. */
  predicate IsPrefix(p: string, s: string) {
    |p| <= |s| && p == s[..|p|]
  }

  /** `s.Contains(p)`: `p` occurs in `s` as a contiguous substring. */
  predicate Contains(s: string, p: string)
    decreases |s|
  {
    IsPrefix(p, s) || (|s| > 0 && Contains(s[1..], p))
  }

  /** Local helper: every string contains the empty string. */
  lemma ContainsEmpty(s: string)
    ensures Contains(s, "")
  {
  }

  /** Lower-casing of one character, as `ToLower` does it for the Latin and
      the Russian alphabet. */
  function LowerChar(c: char): (d: char)
    ensures 'A' <= c <= 'Z' ==> d as int == c as int + 32
    ensures 'А' <= c <= 'Я' ==> d as int == c as int + 32
    ensures c == 'Ё' ==> d == 'ё'
    ensures !('A' <= c <= 'Z') && !('А' <= c <= 'Я') && c != 'Ё' ==> d == c
  {
    if 'A' <= c <= 'Z' then (c as int + 32) as char
    else if 'А' <= c <= 'Я' then (c as int + 32) as char
    else if c == 'Ё' then 'ё'
    else c
  }

  /** `s.ToLower()`. */
  function Lower(s: string): (r: string)
    ensures |r| == |s|
    ensures forall i :: 0 <= i < |s| ==> r[i] == LowerChar(s[i])
  {
    seq(|s|, i requires 0 <= i < |s| => LowerChar(s[i]))
  }

  /** The elements of `s` that satisfy `p`, in their order in `s`
      (a LINQ `Where`). */
  function Filter<T(!new)>(s: seq<T>, p: T -> bool): (r: seq<T>)
    ensures |r| <= |s|
    ensures forall x :: x in r <==> x in s && p(x)
    ensures multiset(r) <= multiset(s)
  {
    if s == [] then []
    else
      assert s == [s[0]] + s[1..];
      (if p(s[0]) then [s[0]] else []) + Filter(s[1..], p)
  }

  /** `Where` distributes over concatenation, so a loop may filter its input
      one element at a time. */
  lemma {:induction false} FilterAppend<T(!new)>(a: seq<T>, b: seq<T>, p: T -> bool)
    ensures Filter(a + b, p) == Filter(a, p) + Filter(b, p)
  {
    if a == [] {
      assert a + b == b;
    } else {
      assert (a + b)[0] == a[0];
      assert (a + b)[1..] == a[1..] + b;
      FilterAppend(a[1..], b, p);
    }
  }

  /** A filter keeps everything exactly when everything satisfies it. */
  lemma {:induction false} FilterAll<T(!new)>(s: seq<T>, p: T -> bool)
    requires forall x :: x in s ==> p(x)
    ensures Filter(s, p) == s
  {
    if s != [] {
      FilterAll(s[1..], p);
    }
  }

  /** The positions of the elements of `s` that satisfy `p`, in increasing
      order. */
  function Positions<T>(s: seq<T>, p: T -> bool): (r: seq<nat>)
    ensures forall k :: 0 <= k < |r| ==> r[k] < |s|
    ensures forall a, b :: 0 <= a < b < |r| ==> r[a] < r[b]
    ensures forall j :: 0 <= j < |s| ==> (j in r <==> p(s[j]))
  {
    if s == [] then []
    else
      var front := s[..|s| - 1];
      var r := Positions(front, p);
      assert forall j :: 0 <= j < |front| ==> front[j] == s[j];
      r + (if p(s[|s| - 1]) then [|s| - 1] else [])
  }

  /** `Where` keeps the order of its input: its `k`-th result is the
      element at the `k`-th position that satisfies the predicate. */
  lemma {:induction false} FilterInOrder<T(!new)>(s: seq<T>, p: T -> bool)
    ensures |Filter(s, p)| == |Positions(s, p)|
    ensures forall k :: 0 <= k < |Filter(s, p)| ==> Filter(s, p)[k] == s[Positions(s, p)[k]]
  {
    if s != [] {
      var n := |s| - 1;
      var front := s[..n];
      var f0 := Filter(front, p);
      var q0 := Positions(front, p);
      FilterInOrder(front, p);
      assert s == front + [s[n]];
      FilterAppend(front, [s[n]], p);
      var last := if p(s[n]) then [s[n]] else [];
      var lastAt := if p(s[n]) then [n] else [];
      assert Filter([s[n]], p) == last by {
        assert [s[n]][1..] == [];
      }
      var f := Filter(s, p);
      var q := Positions(s, p);
      assert f == f0 + last;
      assert q == q0 + lastAt;
      forall k | 0 <= k < |f| ensures f[k] == s[q[k]] {
        if k < |f0| {
          assert f[k] == f0[k] == front[q0[k]];
          assert q[k] == q0[k];
        } else {
          assert f[k] == s[n] && q[k] == n;
        }
      }
    }
  }

  /** How many elements of `s` satisfy `p` (a LINQ `Count(p)`). */
  function CountIf<T(!new)>(s: seq<T>, p: T -> bool): (n: nat)
    ensures n == |Filter(s, p)|
    ensures n <= |s|
  {
    if s == [] then 0 else (if p(s[0]) then 1 else 0) + CountIf(s[1..], p)
  }

  /** The first element of `s` that satisfies `p`, if any
      (`FirstOrDefault(p)`). */
  function First<T(!new)>(s: seq<T>, p: T -> bool): (r: Option<T>)
    ensures r.Some? <==> exists x :: x in s && p(x)
    ensures r.Some? ==> r.value in s && p(r.value)
    ensures r.Some? ==> exists k :: 0 <= k < |s| && s[k] == r.value && forall j :: 0 <= j < k ==> !p(s[j])
  {
    if s == [] then None
    else if p(s[0]) then Some(s[0])
    else
      var r := First(s[1..], p);
      assert r.Some? ==> exists k :: 1 <= k < |s| && s[k] == r.value && forall j :: 0 <= j < k ==> !p(s[j]) by {
        if r.Some? {
          var k :| 0 <= k < |s[1..]| && s[1..][k] == r.value && forall j :: 0 <= j < k ==> !p(s[1..][j]);
          assert s[k + 1] == r.value;
          forall j | 0 <= j < k + 1 ensures !p(s[j]) {
            if j > 0 { assert s[j] == s[1..][j - 1]; }
          }
        }
      }
      r
  }

  /** An element that satisfies `p` with none before it is the one `First`
      returns. */
  lemma {:induction false} FirstAt<T(!new)>(s: seq<T>, p: T -> bool, j: int)
    requires 0 <= j < |s| && p(s[j])
    requires forall i :: 0 <= i < j ==> !p(s[i])
    ensures First(s, p) == Some(s[j])
  {
    if j > 0 {
      FirstAt(s[1..], p, j - 1);
    }
  }

  /** Applies `f` to every element (a LINQ `Select`). */
  function MapSeq<T, U>(s: seq<T>, f: T -> U): (r: seq<U>)
    ensures |r| == |s|
    ensures forall k :: 0 <= k < |s| ==> r[k] == f(s[k])
  {
    seq(|s|, k requires 0 <= k < |s| => f(s[k]))
  }

  /** Applies `f` to every element in order; the first failure ends the
      whole run (a loop that returns on the first error). */
  function Traverse<T, U>(s: seq<T>, f: T -> Result<U>): (r: Result<seq<U>>)
    ensures r.Success? ==> |r.value| == |s|
    ensures r.Failure? ==> exists k :: 0 <= k < |s| && f(s[k]) == Failure(r.fault)
  {
    if s == [] then Success([])
    else
      match f(s[0])
      case Failure(e) => Failure(e)
      case Success(v) =>
        match Traverse(s[1..], f)
        case Failure(e) =>
          ghost var k :| 0 <= k < |s[1..]| && f(s[1..][k]) == Failure(e);
          assert s[k + 1] == s[1..][k];
          Failure(e)
        case Success(vs) => Success([v] + vs)
  }

  /** `r` with `prefix` put in front of its values. */
  function Prepend<U>(prefix: seq<U>, r: Result<seq<U>>): Result<seq<U>> {
    if r.Success? then Success(prefix + r.value) else r
  }

  /** Where a traversal starts and where it ends. */
  lemma TraverseFrom<T, U>(s: seq<T>, f: T -> Result<U>, k: int, done: seq<U>)
    requires k == 0 || k == |s|
    ensures k == 0 ==> Prepend([], Traverse(s[k..], f)) == Traverse(s, f)
    ensures k == |s| ==> Prepend(done, Traverse(s[k..], f)) == Success(done)
  {
    if k == 0 {
      assert s[0..] == s;
      if Traverse(s, f).Success? {
        assert [] + Traverse(s, f).value == Traverse(s, f).value;
      }
    } else {
      assert s[k..] == [];
      assert done + [] == done;
    }
  }

  /** One step of a traversal from position `k`. */
  lemma TraverseStep<T, U>(s: seq<T>, f: T -> Result<U>, k: int, done: seq<U>)
    requires 0 <= k < |s|
    ensures f(s[k]).Failure? ==> Prepend(done, Traverse(s[k..], f)) == Failure(f(s[k]).fault)
    ensures f(s[k]).Success? ==>
      Prepend(done, Traverse(s[k..], f)) == Prepend(done + [f(s[k]).value], Traverse(s[k + 1..], f))
  {
    assert s[k..][0] == s[k] && s[k..][1..] == s[k + 1..];
    var rest := Traverse(s[k + 1..], f);
    if f(s[k]).Success? && rest.Success? {
      assert done + ([f(s[k]).value] + rest.value) == (done + [f(s[k]).value]) + rest.value;
    }
  }

  /** A run succeeds exactly when every element succeeds, and then holds
      their values position by position. */
  lemma {:induction false} TraverseElementwise<T, U>(s: seq<T>, f: T -> Result<U>)
    ensures var r := Traverse(s, f);
      && (r.Success? <==> forall k :: 0 <= k < |s| ==> f(s[k]).Success?)
      && (r.Success? ==> forall k :: 0 <= k < |s| ==> r.value[k] == f(s[k]).value)
  {
    if s != [] {
      TraverseElementwise(s[1..], f);
      assert forall k :: 1 <= k < |s| ==> s[k] == s[1..][k - 1];
    }
  }
}
