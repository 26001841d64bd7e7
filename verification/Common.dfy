/** Fixed-width integers, byte strings and the few helpers that every other module shares. */
module Common {

  const U64_MAX: int := 0xFFFF_FFFF_FFFF_FFFF

  /** Number of values of a `u64`; arithmetic that the release build lets wrap is taken modulo this. */
  const U64_MODULUS: int := 0x1_0000_0000_0000_0000

  type U64 = x: nat | x <= 0xFFFF_FFFF_FFFF_FFFF

  type Byte = x: nat | x < 256

  type Bytes = seq<Byte>

  datatype Option<+T> = None | Some(value: T)

  datatype Result<+T, +E> = Ok(value: T) | Err(error: E) {
    predicate IsFailure() {
      Err?
    }

    function PropagateFailure<U>(): Result<U, E>
      requires Err?
    {
      Err(error)
    }

    function Extract(): T
      requires Ok?
    {
      value
    }
  }

  function Min(a: int, b: int): int {
    if a <= b then a else b
  }

  function Max(a: int, b: int): int {
    if a <= b then b else a
  }

  /** Reduction modulo 2^64: what a `u64` holds after arithmetic that the release build lets wrap. */
  function Wrap(x: nat): (r: U64)
    ensures x <= U64_MAX ==> r == x
  {
    if x <= U64_MAX then x else Wrap(x - U64_MODULUS)
  }

  lemma {:induction false} WrapTwice(a: nat, b: nat)
    ensures Wrap(Wrap(a) + b) == Wrap(a + b)
    decreases a
  {
    if a > U64_MAX {
      WrapTwice(a - U64_MODULUS, b);
      assert a + b - U64_MODULUS == a - U64_MODULUS + b;
    }
  }

  predicate StrictlyIncreasing(s: seq<nat>) {
    forall i, j :: 0 <= i < j < |s| ==> s[i] < s[j]
  }

  lemma {:induction false} MinExists(s: set<nat>)
    requires s != {}
    ensures exists m :: m in s && IsMin(m, s)
  {
    var x :| x in s;
    if !IsMin(x, s) {
      var y :| y in s && y < x;
      var rest := s - {x};
      assert y in rest;
      MinExists(rest);
      var m :| m in rest && IsMin(m, rest);
      assert m <= y;
      forall z | z in s ensures m <= z {
        assert z == x || z in rest;
      }
    }
  }

  predicate IsMin(m: nat, s: set<nat>) {
    forall y :: y in s ==> m <= y
  }

  lemma MinFirst(s: set<nat>, m: nat, rest: seq<nat>)
    requires m in s && IsMin(m, s) && StrictlyIncreasing(rest)
    requires forall x :: x in rest <==> x in s - {m}
    ensures StrictlyIncreasing([m] + rest)
    ensures forall x :: x in [m] + rest <==> x in s
  {
    forall j | 0 <= j < |rest| ensures m < rest[j] {
      var x := rest[j];
      assert x in rest;
    }
    assert forall x :: x in [m] + rest <==> x == m || x in rest;
  }

  /** The elements of a set in ascending order: the iteration order of a `BTreeSet` or `BTreeMap`. */
  function Sorted(s: set<nat>): (r: seq<nat>)
    ensures StrictlyIncreasing(r)
    ensures forall x :: x in r <==> x in s
    ensures |r| == |s|
  {
    if s == {} then []
    else
      MinExists(s);
      var m :| m in s && IsMin(m, s);
      var rest := Sorted(s - {m});
      MinFirst(s, m, rest);
      [m] + rest
  }

  /** Two strictly increasing sequences with the same elements are equal. */
  lemma {:induction false} IncreasingUnique(a: seq<nat>, b: seq<nat>)
    requires StrictlyIncreasing(a) && StrictlyIncreasing(b)
    requires forall x :: x in a <==> x in b
    ensures a == b
  {
    assert b != [] ==> var y := b[0]; y in b;
    if a != [] {
      var x := a[0];
      assert x in b;
      var y := b[0];
      assert y in a;
      var a', b' := a[1..], b[1..];
      forall x ensures x in a' <==> x in b' {
        if x in a' { assert x in b && x != b[0]; }
        if x in b' { assert x in a && x != a[0]; }
      }
      IncreasingUnique(a', b');
      assert a == [a[0]] + a' && b == [b[0]] + b';
    }
  }

  /** `front` followed by what the remaining input gives. */
  function Followed<T, E>(front: seq<T>, more: Result<seq<T>, E>): Result<seq<T>, E> {
    var m :- more;
    Ok(front + m)
  }

  lemma FollowedEnds<T, E>(a: seq<T>, more: Result<seq<T>, E>)
    ensures Followed([], more) == more && Followed<T, E>(a, Ok([])) == Ok(a)
  {
    assert a + [] == a;
    if more.Ok? {
      assert [] + more.value == more.value;
    }
  }

  lemma FollowedConcat<T, E>(a: seq<T>, b: seq<T>, more: Result<seq<T>, E>)
    ensures Followed(a, Followed(b, more)) == Followed(a + b, more)
  {
    if more.Ok? {
      assert a + (b + more.value) == a + b + more.value;
    }
  }

  lemma Regroup<T>(x: seq<T>, y: seq<T>, z: seq<T>)
    ensures x + (y + z) == x + y + z
  {
  }

  lemma ThreeParts<T>(s: seq<T>, i: nat, j: nat)
    requires i <= j <= |s|
    ensures s[..i] + s[i..j] + s[j..] == s
  {
  }

  function Flatten<A>(parts: seq<seq<A>>): seq<A> {
    if parts == [] then [] else Flatten(parts[..|parts| - 1]) + parts[|parts| - 1]
  }

  lemma FlattenSnoc<A>(parts: seq<seq<A>>, last: seq<A>)
    ensures Flatten(parts + [last]) == Flatten(parts) + last
  {
    assert (parts + [last])[..|parts|] == parts;
  }

  lemma {:induction false} FlattenCons<A>(first: seq<A>, parts: seq<seq<A>>)
    ensures Flatten([first] + parts) == first + Flatten(parts)
  {
    if parts == [] {
      assert [first] + parts == [first] && [first][..0] == [];
      assert Flatten<A>([]) == [] && [] + first == first == first + [];
    } else {
      var n := |parts| - 1;
      FlattenCons(first, parts[..n]);
      assert ([first] + parts)[..n + 1] == [first] + parts[..n];
      Regroup(first, Flatten(parts[..n]), parts[n]);
    }
  }
}
