/** Option and Result, the first-match scan that every early-return
    `for ... in ...: if ...: return` loop of the chatbot performs, and the
    filter that every `for ...: if ...: append` loop performs. */
module Wrappers {

  datatype Option<+T> = None | Some(value: T)

  datatype Result<+R, +E> = Success(value: R) | Failure(error: E)

  /** Index of the first element of `s` satisfying `p`, scanning in order. */
  function FirstWhere<T>(s: seq<T>, p: T -> bool): (r: Option<nat>)
    ensures r.Some? ==> r.value < |s| && p(s[r.value])
    ensures r.Some? ==> forall j :: 0 <= j < r.value ==> !p(s[j])
    ensures r.None? <==> forall j :: 0 <= j < |s| ==> !p(s[j])
  {
    if |s| == 0 then None
    else if p(s[0]) then Some(0)
    else
      match FirstWhere(s[1..], p)
      case None => None
      case Some(i) => Some(i + 1)
  }

  /** Concatenation of sequences is associative. */
  lemma AppendAssociates<T>(a: seq<T>, b: seq<T>, c: seq<T>)
    ensures (a + b) + c == a + (b + c)
  {
  }

  /** The first element satisfying `p` is the one `FirstWhere` finds. */
  lemma FirstWhereUnique<T>(s: seq<T>, p: T -> bool, i: nat)
    requires i < |s| && p(s[i])
    requires forall j :: 0 <= j < i ==> !p(s[j])
    ensures FirstWhere(s, p) == Some(i)
  {
  }

  /** The elements of `s` satisfying `p`, in order. */
  function Filter<T>(s: seq<T>, p: T -> bool): seq<T>
    decreases |s|
  {
    if |s| == 0 then []
    else Filter(s[..|s| - 1], p) + (if p(s[|s| - 1]) then [s[|s| - 1]] else [])
  }

  /** The positions of the elements of `s` satisfying `p`, in order. */
  function Positions<T>(s: seq<T>, p: T -> bool): seq<nat>
    decreases |s|
  {
    if |s| == 0 then []
    else Positions(s[..|s| - 1], p) + (if p(s[|s| - 1]) then [|s| - 1] else [])
  }

  lemma FilterStep<T>(s: seq<T>, p: T -> bool, i: nat)
    requires i < |s|
    ensures Filter(s[..i + 1], p) == Filter(s[..i], p) + (if p(s[i]) then [s[i]] else [])
  {
    assert s[..i + 1][..i] == s[..i];
  }

  /** The filtered sequence is the sequence read at the kept positions; those
      increase, and a position is kept iff its element satisfies `p`. */
  lemma {:induction false} FilterPositions<T>(s: seq<T>, p: T -> bool)
    ensures var f := Filter(s, p);
      var ps := Positions(s, p);
      && |f| == |ps|
      && (forall k :: 0 <= k < |ps| ==> ps[k] < |s| && f[k] == s[ps[k]])
      && (forall k, l :: 0 <= k < l < |ps| ==> ps[k] < ps[l])
      && (forall i :: 0 <= i < |s| ==> (i in ps <==> p(s[i])))
    decreases |s|
  {
    if |s| > 0 {
      var n := |s| - 1;
      var init := s[..n];
      FilterPositions(init, p);
      var fInit := Filter(init, p);
      var psInit := Positions(init, p);
      var f := Filter(s, p);
      var ps := Positions(s, p);
      assert f == fInit + (if p(s[n]) then [s[n]] else []);
      assert ps == psInit + (if p(s[n]) then [n] else []);
      forall k | 0 <= k < |ps| ensures ps[k] < |s| && f[k] == s[ps[k]] {
        if k < |psInit| {
          assert init[psInit[k]] == s[psInit[k]];
        }
      }
      forall k, l | 0 <= k < l < |ps| ensures ps[k] < ps[l] {
        if l < |psInit| {
          assert ps[k] == psInit[k] && ps[l] == psInit[l];
        }
      }
      forall i | 0 <= i < |s| ensures i in ps <==> p(s[i]) {
        if i < n {
          assert init[i] == s[i];
          assert i in ps <==> i in psInit;
        }
      }
    }
  }

  /** The concatenation of `f(x)` over `xs`, in order, or the first failure:
      what a loop that appends `f(x)` for each `x` and lets an error escape builds. */
  function Concatenated<T, U, E>(xs: seq<T>, f: T -> Result<seq<U>, E>): Result<seq<U>, E>
    decreases |xs|
  {
    if |xs| == 0 then Success([])
    else
      match Concatenated(xs[..|xs| - 1], f)
      case Failure(e) => Failure(e)
      case Success(done) =>
        match f(xs[|xs| - 1])
        case Failure(e) => Failure(e)
        case Success(part) => Success(done + part)
  }

  lemma ConcatenatedStep<T, U, E>(xs: seq<T>, f: T -> Result<seq<U>, E>, i: nat)
    requires i < |xs| && Concatenated(xs[..i], f).Success?
    ensures f(xs[i]).Success? ==> Concatenated(xs[..i + 1], f) == Success(Concatenated(xs[..i], f).value + f(xs[i]).value)
    ensures f(xs[i]).Failure? ==> Concatenated(xs[..i + 1], f) == Failure(f(xs[i]).error)
  {
    assert xs[..i + 1][..i] == xs[..i];
  }

  lemma {:induction false} ConcatenatedFailureSticks<T, U, E>(xs: seq<T>, f: T -> Result<seq<U>, E>, k: nat)
    requires k <= |xs| && Concatenated(xs[..k], f).Failure?
    ensures Concatenated(xs, f) == Concatenated(xs[..k], f)
    decreases |xs| - k
  {
    if k < |xs| {
      assert xs[..k + 1][..k] == xs[..k];
      ConcatenatedFailureSticks(xs, f, k + 1);
    } else {
      assert xs[..k] == xs;
    }
  }

  /** A failed concatenation carries the error of the element that failed first. */
  lemma {:induction false} ConcatenatedFailureOrigin<T, U, E>(xs: seq<T>, f: T -> Result<seq<U>, E>) returns (i: nat)
    requires Concatenated(xs, f).Failure?
    ensures i < |xs| && f(xs[i]).Failure? && f(xs[i]).error == Concatenated(xs, f).error
    ensures forall j :: 0 <= j < i ==> f(xs[j]).Success?
    decreases |xs|
  {
    var n := |xs| - 1;
    var init := xs[..n];
    if Concatenated(init, f).Failure? {
      i := ConcatenatedFailureOrigin(init, f);
      assert init[i] == xs[i];
      assert forall j :: 0 <= j < i ==> init[j] == xs[j];
    } else {
      i := n;
      forall j | 0 <= j < n ensures f(xs[j]).Success? {
        ConcatenatedAt(init, f, j);
        assert init[j] == xs[j];
      }
    }
  }

  /** In a successful concatenation, part i sits right after the parts before it. */
  lemma {:induction false} ConcatenatedAt<T, U, E>(xs: seq<T>, f: T -> Result<seq<U>, E>, i: nat)
    requires i < |xs| && Concatenated(xs, f).Success?
    ensures Concatenated(xs[..i], f).Success? && f(xs[i]).Success?
    ensures var before := Concatenated(xs[..i], f).value;
      var part := f(xs[i]).value;
      var all := Concatenated(xs, f).value;
      |before| + |part| <= |all| && all[|before|..|before| + |part|] == part
    decreases |xs|
  {
    var n := |xs| - 1;
    var init := xs[..n];
    if i < n {
      assert init[..i] == xs[..i];
      assert init[i] == xs[i];
      ConcatenatedAt(init, f, i);
      var before := Concatenated(xs[..i], f).value;
      var part := f(xs[i]).value;
      var initAll := Concatenated(init, f).value;
      assert Concatenated(xs, f).value[|before|..|before| + |part|] == initAll[|before|..|before| + |part|];
    }
  }
}
