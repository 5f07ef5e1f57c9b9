/**
 * Small shared vocabulary: an optional value standing for a Java reference that may be
 * null, and the filter-and-map pass every line reader of the system performs.
 */
module Common {

  /** `None` plays the part of Java's `null`. */
  datatype Option<+T> = None | Some(value: T)

  /** The text Java's string concatenation produces for a possibly-null string. */
  function ShowNullable(s: Option<string>): (r: string)
    ensures s.Some? ==> r == s.value
    ensures s.None? ==> r == "null"
  {
    match s
    case Some(v) => v
    case None => "null"
  }

  /** What `select` keeps of one element: nothing, or the one value it picks. */
  function Pick<A, B>(x: A, select: A -> Option<B>): (r: seq<B>)
    ensures |r| <= 1 && (r == [] <==> select(x).None?)
  {
    if select(x).Some? then [select(x).value] else []
  }

  /** What `select` keeps of each element, in order: a filter and a map in one pass. */
  function Collect<A, B>(lines: seq<A>, select: A -> Option<B>): seq<B>
    decreases |lines|
  {
    if lines == [] then [] else Pick(lines[0], select) + Collect(lines[1..], select)
  }

  lemma {:induction false} CollectAppend<A, B>(lines: seq<A>, line: A, select: A -> Option<B>)
    ensures Collect(lines + [line], select) == Collect(lines, select) + Pick(line, select)
    decreases |lines|
  {
    var t := lines + [line];
    if lines == [] {
      assert t == [line];
      assert Collect(t, select) == Pick(line, select) + Collect(t[1..], select);
      assert t[1..] == [];
    } else {
      assert t[0] == lines[0];
      assert t[1..] == lines[1..] + [line];
      CollectAppend(lines[1..], line, select);
      assert Collect(t, select) == Pick(lines[0], select) + Collect(t[1..], select);
      assert Collect(lines, select) == Pick(lines[0], select) + Collect(lines[1..], select);
    }
  }

  /** Nothing is collected exactly when no line is selected. */
  lemma {:induction false} CollectEmptyIff<A, B>(lines: seq<A>, select: A -> Option<B>)
    ensures Collect(lines, select) == [] <==> forall k :: 0 <= k < |lines| ==> select(lines[k]).None?
    decreases |lines|
  {
    if lines != [] {
      CollectEmptyIff(lines[1..], select);
      assert forall k :: 1 <= k < |lines| ==> lines[k] == lines[1..][k - 1];
    }
  }

  /** Every collected entry comes from some line, and there are no more entries than lines. */
  lemma {:induction false} CollectFromLines<A, B>(lines: seq<A>, select: A -> Option<B>)
    ensures |Collect(lines, select)| <= |lines|
    ensures forall e :: e in Collect(lines, select) ==>
              exists k :: 0 <= k < |lines| && select(lines[k]) == Some(e)
    decreases |lines|
  {
    if lines != [] {
      CollectFromLines(lines[1..], select);
      forall e | e in Collect(lines, select)
        ensures exists k :: 0 <= k < |lines| && select(lines[k]) == Some(e)
      {
        if select(lines[0]) == Some(e) {
          assert select(lines[0]) == Some(e);
        } else {
          assert e in Collect(lines[1..], select);
          var k :| 0 <= k < |lines[1..]| && select(lines[1..][k]) == Some(e);
          assert select(lines[k + 1]) == Some(e);
        }
      }
    }
  }

  /** Two selectors that pick the same lines collect equally many entries. */
  lemma {:induction false} CollectSameLength<A, B, C>(lines: seq<A>, s1: A -> Option<B>, s2: A -> Option<C>)
    requires forall k :: 0 <= k < |lines| ==> (s1(lines[k]).Some? <==> s2(lines[k]).Some?)
    ensures |Collect(lines, s1)| == |Collect(lines, s2)|
    decreases |lines|
  {
    if lines != [] {
      assert s1(lines[0]).Some? <==> s2(lines[0]).Some?;
      assert forall k :: 0 <= k < |lines[1..]| ==> lines[1..][k] == lines[k + 1];
      CollectSameLength(lines[1..], s1, s2);
    }
  }

  /** The last `Some` that `f` gives over `xs`, or `None`: a reader where later hits overwrite. */
  function LastSome<A, B>(xs: seq<A>, f: A -> Option<B>): Option<B>
    decreases |xs|
  {
    if xs == [] then None
    else if f(xs[|xs| - 1]).Some? then f(xs[|xs| - 1])
    else LastSome(xs[..|xs| - 1], f)
  }

  /** `LastSome` names the hit of the last element that has one, and is `None` only without hits. */
  lemma {:induction false} LastSomeIsLatest<A, B>(xs: seq<A>, f: A -> Option<B>)
    ensures LastSome(xs, f).None? <==> forall k :: 0 <= k < |xs| ==> f(xs[k]).None?
    ensures LastSome(xs, f).Some? ==>
              exists k :: 0 <= k < |xs| && f(xs[k]) == LastSome(xs, f) &&
                forall j :: k < j < |xs| ==> f(xs[j]).None?
    decreases |xs|
  {
    if xs != [] {
      var n := |xs| - 1;
      var init := xs[..n];
      LastSomeIsLatest(init, f);
      if f(xs[n]).Some? {
        assert LastSome(xs, f) == f(xs[n]);
      } else {
        assert LastSome(xs, f) == LastSome(init, f);
        assert forall k :: 0 <= k < n ==> init[k] == xs[k];
        if LastSome(init, f).Some? {
          var k :| 0 <= k < |init| && f(init[k]) == LastSome(init, f) &&
                   forall j :: k < j < |init| ==> f(init[j]).None?;
          assert f(xs[k]) == LastSome(xs, f);
        }
      }
    }
  }
}
