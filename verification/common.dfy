/** Shared vocabulary of the renderer model: optional values, results of
    operations that can throw, opaque GPU handles and the device that issues
    them. The device is an oracle: it numbers every creation request and a
    request fails exactly when its number is in `failing`. */
module Common {

  datatype Option<+T> = None | Some(value: T) {
    function GetOr(default: T): T {
      match this
      case Some(v) => v
      case None => default
    }
  }

  /** Outcome of an operation of the source that may throw a
      `std::runtime_error`: `Err` carries the exception's message. */
  datatype Result<+T> = Ok(value: T) | Err(message: string)

  /** A COM interface pointer: `Null` is `nullptr`, `Obj(id)` a live object. */
  datatype Handle = Null | Obj(id: nat)

  /** The D3D11 device seen as a creation oracle. */
  datatype Device = Device(issued: nat, failing: set<nat>) {

    /** True if the next creation request will fail. */
    predicate NextFails() {
      issued in failing
    }

    /** One `Create*` call whose HRESULT the caller checks. */
    function Create(): (r: (Device, Option<Handle>))
      ensures r.0.issued == issued + 1 && r.0.failing == failing
      ensures r.1.None? <==> NextFails()
      ensures r.1.Some? ==> r.1.value == Obj(issued)
    {
      (Device(issued + 1, failing), if NextFails() then None else Some(Obj(issued)))
    }

    /** One `Create*` call whose HRESULT the caller ignores: a failed call
        leaves the out-pointer null. */
    function CreateUnchecked(): (r: (Device, Handle))
      ensures r.0.issued == issued + 1 && r.0.failing == failing
      ensures r.1 == Null <==> NextFails()
      ensures r.1 != Null ==> r.1 == Obj(issued)
    {
      var (d, h) := Create();
      (d, h.GetOr(Null))
    }
  }

  /** No creation numbered in `[from, to)` fails. */
  predicate NoneFail(failing: set<nat>, from: nat, to: nat) {
    forall k | from <= k < to :: k !in failing
  }

  /** A run of creation numbers succeeds iff both of its parts do. */
  lemma NoneFailSplit(failing: set<nat>, a: nat, b: nat, c: nat)
    requires a <= b <= c
    ensures NoneFail(failing, a, c) <==> NoneFail(failing, a, b) && NoneFail(failing, b, c)
  {
  }

  /** Handle `h` was issued by a device whose counter has since reached `issued`
      and did not exist when the counter stood at `from`. */
  predicate IssuedBetween(h: Handle, from: nat, issued: nat) {
    h.Obj? && from <= h.id < issued
  }

  predicate Distinct<T(==)>(s: seq<T>) {
    forall i, j | 0 <= i < j < |s| :: s[i] != s[j]
  }

  /** Number of occurrences of `x` in `s`. */
  function Count<T(==)>(s: seq<T>, x: T): nat
    decreases |s|
  {
    if |s| == 0 then 0
    else (if s[0] == x then 1 else 0) + Count(s[1..], x)
  }

  lemma {:induction false} CountAppend<T>(a: seq<T>, b: seq<T>, x: T)
    ensures Count(a + b, x) == Count(a, x) + Count(b, x)
    decreases |a|
  {
    if |a| == 0 {
      assert a + b == b;
    } else {
      assert (a + b)[1..] == a[1..] + b;
      CountAppend(a[1..], b, x);
    }
  }

  lemma {:induction false} CountAbsent<T>(s: seq<T>, x: T)
    requires x !in s
    ensures Count(s, x) == 0
    decreases |s|
  {
    if |s| > 0 {
      assert forall k | 0 <= k < |s[1..]| :: s[1..][k] == s[k + 1];
      CountAbsent(s[1..], x);
    }
  }

  /** A value that occurs at most once in `s` is counted once if present. */
  lemma {:induction false} CountUnique<T>(s: seq<T>, x: T)
    requires forall i, j | 0 <= i < j < |s| :: s[i] == x ==> s[j] != x
    ensures Count(s, x) == (if x in s then 1 else 0)
    decreases |s|
  {
    if |s| > 0 {
      forall i, j | 0 <= i < j < |s[1..]| && s[1..][i] == x
        ensures s[1..][j] != x
      {
        assert s[1..][i] == s[i + 1] && s[1..][j] == s[j + 1];
      }
      CountUnique(s[1..], x);
      if s[0] == x {
        assert x !in s[1..] by {
          forall k | 0 <= k < |s[1..]|
            ensures s[1..][k] != x
          {
            assert s[1..][k] == s[k + 1];
          }
        }
        CountAbsent(s[1..], x);
      }
      assert x in s <==> s[0] == x || x in s[1..];
    }
  }

  /** In a sequence without repetitions every member occurs exactly once. */
  lemma CountDistinct<T>(s: seq<T>, x: T)
    requires Distinct(s)
    ensures Count(s, x) == (if x in s then 1 else 0)
  {
    CountUnique(s, x);
  }
}
