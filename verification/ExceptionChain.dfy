/** Splicing of exception `previous` chains (core/compiler/compile-try-catch.go).

    The value level reads a finite heap of exceptions as a map from each object to its
    previous object; the class level is the in-place walk over mutable objects.
 */
module ExceptionChain {
  import opened Options

  /** For each object of a heap: the object its `previous` slot holds, if it holds one. */
  type Links<!R> = map<R, Option<R>>

  ghost predicate Closed<R>(h: Links<R>) {
    forall o :: o in h && h[o].Some? ==> h[o].value in h
  }

  /** `c` is the whole previous-chain of `o`: linked element by element, ending in no link. */
  ghost predicate IsChain<R>(h: Links<R>, o: R, c: seq<R>) {
    && |c| > 0
    && c[0] == o
    && (forall i :: 0 <= i < |c| ==> c[i] in h)
    && (forall i :: 0 <= i < |c| - 1 ==> h[c[i]] == Some(c[i + 1]))
    && h[c[|c| - 1]] == None
  }

  ghost predicate Disjoint<R>(a: seq<R>, b: seq<R>) {
    forall x :: x in a ==> x !in b
  }

  ghost predicate NoDuplicates<R>(c: seq<R>) {
    forall i, j :: 0 <= i < j < |c| ==> c[i] != c[j]
  }

  function ToSet<R>(c: seq<R>): set<R> {
    set x | x in c
  }

  /** The chain of `o`, unless following it runs into `seen` or into itself. */
  ghost function Walk<R>(h: Links<R>, o: R, seen: set<R>): Option<seq<R>>
    requires Closed(h) && o in h
    decreases h.Keys - seen
  {
    if o in seen then None
    else if h[o].None? then Some([o])
    else Prepend([o], Walk(h, h[o].value, seen + {o}))
  }

  ghost function Prepend<R>(c: seq<R>, rest: Option<seq<R>>): Option<seq<R>> {
    match rest
    case None => None
    case Some(tail) => Some(c + tail)
  }

  /** One step of the walk moves an object from the rest to the prefix. */
  lemma WalkStep<R>(h: Links<R>, before: seq<R>, cur: R)
    requires Closed(h) && cur in h && cur !in before && h[cur].Some?
    ensures ToSet(before + [cur]) == ToSet(before) + {cur}
    ensures Prepend(before, Walk(h, cur, ToSet(before)))
         == Prepend(before + [cur], Walk(h, h[cur].value, ToSet(before + [cur])))
  {
    assert ToSet(before + [cur]) == ToSet(before) + {cur};
    var rest := Walk(h, h[cur].value, ToSet(before + [cur]));
    if rest.Some? {
      assert before + ([cur] + rest.value) == before + [cur] + rest.value;
    }
  }

  lemma NothingToPrepend<R>(rest: Option<seq<R>>)
    ensures Prepend([], rest) == rest
  {
    assert rest.Some? ==> [] + rest.value == rest.value;
  }

  ghost function ChainOf<R>(h: Links<R>, o: R): Option<seq<R>>
    requires Closed(h) && o in h
  {
    Walk(h, o, {})
  }

  ghost predicate Acyclic<R>(h: Links<R>)
    requires Closed(h)
  {
    forall o :: o in h ==> ChainOf(h, o).Some?
  }

  /** The specification of the splice: what the heap looks like afterwards. */
  ghost function Spliced<R>(h: Links<R>, finallyObj: R, pendingObj: R): Links<R>
    requires Closed(h) && finallyObj in h && pendingObj in h
  {
    match (ChainOf(h, finallyObj), ChainOf(h, pendingObj))
    case (Some(cf), Some(cp)) =>
      WalkIsChain(h, finallyObj, {});
      if Disjoint(cf, cp) then h[cf[|cf| - 1] := Some(pendingObj)] else h
    case _ => h
  }

  // ----- the walk computes exactly the chains -----

  lemma {:induction false} WalkIsChain<R>(h: Links<R>, o: R, seen: set<R>)
    requires Closed(h) && o in h
    ensures Walk(h, o, seen).Some? ==>
              var c := Walk(h, o, seen).value;
              IsChain(h, o, c) && NoDuplicates(c) && forall x :: x in c ==> x !in seen
    decreases h.Keys - seen
  {
    if o !in seen && h[o].Some? {
      WalkIsChain(h, h[o].value, seen + {o});
    }
  }

  /** A chain never repeats an object: the repeat would have to be both linked and the end. */
  lemma ChainHasNoDuplicates<R>(h: Links<R>, o: R, c: seq<R>)
    requires IsChain(h, o, c)
    ensures NoDuplicates(c)
  {
    forall i, j | 0 <= i < j < |c| ensures c[i] != c[j] {
      var m := |c| - 1 - (j - i);
      assert h[c[m]] == Some(c[m + 1]);
      if c[i] == c[j] {
        SameTails(h, o, c, i, j, |c| - 1 - j);
      }
    }
  }

  lemma {:induction false} SameTails<R>(h: Links<R>, o: R, c: seq<R>, i: nat, j: nat, k: nat)
    requires IsChain(h, o, c) && i < j && j + k < |c| && c[i] == c[j]
    ensures c[i + k] == c[j + k]
  {
    if k > 0 {
      SameTails(h, o, c, i, j, k - 1);
      assert h[c[i + k - 1]] == Some(c[i + k]);
      assert h[c[j + k - 1]] == Some(c[j + k]);
    }
  }

  lemma {:induction false} ChainIsWalk<R>(h: Links<R>, o: R, c: seq<R>, seen: set<R>)
    requires Closed(h) && o in h && IsChain(h, o, c) && NoDuplicates(c)
    requires forall x :: x in c ==> x !in seen
    ensures Walk(h, o, seen) == Some(c)
    decreases |c|
  {
    assert c[0] in c;
    if |c| > 1 {
      ChainIsWalk(h, c[1], c[1..], seen + {o});
      assert c == [o] + c[1..];
    } else {
      assert c == [o];
    }
  }

  /** `ChainOf` is the previous-chain, and it exists exactly when following links ends. */
  lemma ChainOfIsTheChain<R>(h: Links<R>, o: R, c: seq<R>)
    requires Closed(h) && o in h
    ensures ChainOf(h, o) == Some(c) <==> IsChain(h, o, c)
  {
    WalkIsChain(h, o, {});
    if IsChain(h, o, c) {
      ChainHasNoDuplicates(h, o, c);
      ChainIsWalk(h, o, c, {});
    }
  }

  // ----- what the splice does -----

  /** Two finite chains with no object in common are joined, finally's chain first; no link
      other than the last one of finally's chain is touched. */
  lemma SpliceJoinsChains<R>(h: Links<R>, f: R, p: R, cf: seq<R>, cp: seq<R>)
    requires Closed(h) && f in h && p in h
    requires IsChain(h, f, cf) && IsChain(h, p, cp) && Disjoint(cf, cp)
    ensures Closed(Spliced(h, f, p))
    ensures ChainOf(Spliced(h, f, p), f) == Some(cf + cp)
    ensures ChainOf(Spliced(h, f, p), p) == Some(cp)
    ensures Spliced(h, f, p).Keys == h.Keys
    ensures forall o :: o in h && o != cf[|cf| - 1] ==> Spliced(h, f, p)[o] == h[o]
  {
    ChainOfIsTheChain(h, f, cf);
    ChainOfIsTheChain(h, p, cp);
    ChainHasNoDuplicates(h, f, cf);
    var h' := Spliced(h, f, p);
    assert cf[|cf| - 1] in cf;
    assert IsChain(h', p, cp) by {
      forall i | 0 <= i < |cp| ensures cp[i] != cf[|cf| - 1] { assert cp[i] in cp; }
    }
    var joined := cf + cp;
    assert IsChain(h', f, joined) by {
      forall i | 0 <= i < |joined| - 1 ensures h'[joined[i]] == Some(joined[i + 1]) {
        if i >= |cf| { assert joined[i] == cp[i - |cf|]; }
      }
    }
    ChainOfIsTheChain(h', f, joined);
    ChainOfIsTheChain(h', p, cp);
  }

  /** In every other case (either chain runs into a cycle, or they share an object) nothing
      changes: the splice happens if and only if both chains end and are disjoint. */
  lemma SpliceHappensIff<R>(h: Links<R>, f: R, p: R)
    requires Closed(h) && f in h && p in h
    ensures Spliced(h, f, p) != h <==>
              && ChainOf(h, f).Some? && ChainOf(h, p).Some?
              && Disjoint(ChainOf(h, f).value, ChainOf(h, p).value)
  {
    if ChainOf(h, f).Some? && ChainOf(h, p).Some? {
      WalkIsChain(h, f, {});
      var cf := ChainOf(h, f).value;
      assert h[cf[|cf| - 1]] == None;
    }
  }

  /** Splicing never creates a cycle anywhere in the heap. */
  lemma SpliceKeepsAcyclic<R>(h: Links<R>, f: R, p: R)
    requires Closed(h) && f in h && p in h && Acyclic(h)
    ensures Closed(Spliced(h, f, p)) && Acyclic(Spliced(h, f, p))
  {
    var h' := Spliced(h, f, p);
    if h' != h {
      SpliceHappensIff(h, f, p);
      WalkIsChain(h, f, {});
      WalkIsChain(h, p, {});
      var cf, cp := ChainOf(h, f).value, ChainOf(h, p).value;
      SpliceJoinsChains(h, f, p, cf, cp);
      forall o | o in h' ensures ChainOf(h', o).Some? {
        WalkIsChain(h, o, {});
        ReachesEnd(h, o, ChainOf(h, o).value, cf[|cf| - 1], p, cp);
      }
    }
  }

  /** A chain that passes the spliced end goes on into the pending chain. */
  lemma {:induction false} ReachesEnd<R>(h: Links<R>, o: R, c: seq<R>, end: R, p: R, cp: seq<R>)
    requires Closed(h) && o in h && IsChain(h, o, c)
    requires end in h && h[end] == None && IsChain(h, p, cp) && end !in cp
    ensures Closed(h[end := Some(p)]) && ChainOf(h[end := Some(p)], o).Some?
  {
    var h' := h[end := Some(p)];
    var last := |c| - 1;
    forall i | 0 <= i < last ensures c[i] != end { assert h[c[i]] == Some(c[i + 1]); }
    assert IsChain(h', p, cp);
    if c[last] == end {
      var c' := c + cp;
      assert forall i :: 0 <= i < |c'| - 1 ==> i >= |c| ==> c'[i] == cp[i - |c|];
      ChainOfIsTheChain(h', o, c');
    } else {
      ChainOfIsTheChain(h', o, c);
    }
  }

  // ----- nested finally blocks -----

  /** The heap after `thrown[0]` is pending and finally blocks, innermost first, throw
      `thrown[1]`, `thrown[2]`, ... */
  ghost function AfterFinallies<R>(h: Links<R>, thrown: seq<R>): Links<R>
    requires Closed(h) && |thrown| > 0 && forall e :: e in thrown ==> e in h
    ensures Closed(AfterFinallies(h, thrown)) && AfterFinallies(h, thrown).Keys == h.Keys
  {
    if |thrown| == 1 then h
    else
      var n := |thrown| - 1;
      assert forall e :: e in thrown[..n] ==> e in thrown;
      assert thrown[n] in thrown && thrown[n - 1] in thrown;
      var h' := AfterFinallies(h, thrown[..n]);
      SpliceClosed(h', thrown[n], thrown[n - 1]);
      Spliced(h', thrown[n], thrown[n - 1])
  }

  lemma SpliceClosed<R>(h: Links<R>, f: R, p: R)
    requires Closed(h) && f in h && p in h
    ensures Closed(Spliced(h, f, p)) && Spliced(h, f, p).Keys == h.Keys
  {
    WalkIsChain(h, f, {});
  }

  function Newest<R>(s: seq<R>): seq<R> {
    if s == [] then [] else [s[|s| - 1]] + Newest(s[..|s| - 1])
  }

  lemma {:induction false} NewestElements<R>(s: seq<R>)
    ensures |Newest(s)| == |s| && forall x :: x in Newest(s) <==> x in s
  {
    if s != [] {
      NewestElements(s[..|s| - 1]);
      assert s == s[..|s| - 1] + [s[|s| - 1]];
    }
  }

  /** n nested finally blocks that throw fresh exceptions leave one chain that lists them all,
      newest first, and leave every other object's link alone. */
  lemma {:induction false} NestedFinallyChain<R>(h: Links<R>, thrown: seq<R>)
    requires Closed(h) && |thrown| > 0 && NoDuplicates(thrown)
    requires forall e :: e in thrown ==> e in h && h[e] == None
    ensures ChainOf(AfterFinallies(h, thrown), thrown[|thrown| - 1]) == Some(Newest(thrown))
    ensures forall o :: o in h && o !in thrown ==> AfterFinallies(h, thrown)[o] == h[o]
  {
    var n := |thrown| - 1;
    if n == 0 {
      assert thrown[0] in thrown && Newest(thrown) == [thrown[0]];
    } else {
      var older, f, p := thrown[..n], thrown[n], thrown[n - 1];
      assert f in thrown && p in thrown && f !in older;
      assert forall e :: e in older ==> e in thrown;
      NestedFinallyChain(h, older);
      NewestElements(older);
      OneMoreThrown(AfterFinallies(h, older), f, p, Newest(older));
    }
  }

  /** A fresh exception thrown by a finally block goes in front of the pending chain. */
  lemma OneMoreThrown<R>(h: Links<R>, f: R, p: R, cp: seq<R>)
    requires Closed(h) && f in h && p in h && h[f] == None && ChainOf(h, p) == Some(cp) && f !in cp
    ensures Spliced(h, f, p).Keys == h.Keys && ChainOf(Spliced(h, f, p), f) == Some([f] + cp)
    ensures forall o :: o in h && o != f ==> Spliced(h, f, p)[o] == h[o]
  {
    ChainOfIsTheChain(h, p, cp);
    assert IsChain(h, f, [f]);
    SpliceJoinsChains(h, f, p, [f], cp);
  }

  // ----- the in-place walk -----

  /** What `HashTable().GetString("previous")` finds: nothing or NULL, a non-object, an object. */
  datatype Previous = Absent | NotAnObject | Object(exn: Exn)

  class Exn {
    var previous: Previous

    constructor ()
      ensures previous == Absent
    {
      previous := Absent;
    }
  }

  ghost function LinksOf(heap: set<Exn>): Links<Exn>
    reads heap
  {
    map e: Exn | e in heap :: if e.previous.Object? then Some(e.previous.exn) else None
  }

  /** The first loop: collects finally's chain, or finds that it loops. */
  method SeeFinallyChain(ghost heap: set<Exn>, finallyObj: Exn)
    returns (cyclic: bool, seen: set<Exn>, ghost cf: seq<Exn>)
    requires finallyObj in heap && Closed(LinksOf(heap))
    ensures ChainOf(LinksOf(heap), finallyObj) == if cyclic then None else Some(cf)
    ensures !cyclic ==> seen == ToSet(cf) && seen <= heap
  {
    ghost var h := LinksOf(heap);
    seen, cf := {finallyObj}, [];
    var cur := finallyObj;
    NothingToPrepend(Walk(h, cur, {}));
    assert ToSet(cf) == {};
    while cur.previous.Object?
      invariant cur in h && cur !in cf && seen == ToSet(cf) + {cur} && seen <= heap
      invariant ChainOf(h, finallyObj) == Prepend(cf, Walk(h, cur, ToSet(cf)))
      decreases heap - seen
    {
      WalkStep(h, cf, cur);
      var prevObj := cur.previous.exn;
      cf := cf + [cur];
      if prevObj in seen {
        return true, seen, cf;
      }
      seen := seen + {prevObj};
      cur := prevObj;
    }
    cf := cf + [cur];
    cyclic := false;
  }

  /** The second loop: follows the pending chain until it ends or meets an object already seen. */
  method SharesOrLoops(ghost heap: set<Exn>, ghost finallyObj: Exn, pendingObj: Exn, seen0: set<Exn>,
      ghost cf: seq<Exn>)
    returns (refused: bool)
    requires finallyObj in heap && pendingObj in heap && Closed(LinksOf(heap))
    requires ChainOf(LinksOf(heap), finallyObj) == Some(cf) && seen0 == ToSet(cf) && seen0 <= heap
    ensures refused ==> Spliced(LinksOf(heap), finallyObj, pendingObj) == LinksOf(heap)
    ensures !refused ==> ChainOf(LinksOf(heap), pendingObj).Some?
                         && Disjoint(cf, ChainOf(LinksOf(heap), pendingObj).value)
  {
    ghost var h := LinksOf(heap);
    var seen, cur := seen0, pendingObj;
    ghost var cp: seq<Exn> := [];
    NothingToPrepend(Walk(h, cur, {}));
    assert ToSet(cp) == {};
    while true
      invariant cur in h && seen == ToSet(cf) + ToSet(cp) && seen <= heap
      invariant Disjoint(cf, cp)
      invariant ChainOf(h, pendingObj) == Prepend(cp, Walk(h, cur, ToSet(cp)))
      decreases heap - seen
    {
      if cur in seen {
        SharedOrCyclic(h, finallyObj, pendingObj, cf, cp, cur);
        return true;
      }
      seen := seen + {cur};
      if !cur.previous.Object? {
        return false;
      }
      WalkStep(h, cp, cur);
      cp := cp + [cur];
      cur := cur.previous.exn;
    }
  }

  /** chainExceptionPrevious: the in-place splice, on any finite heap, cyclic or not. */
  method ChainExceptionPrevious(ghost heap: set<Exn>, finallyObj: Exn, pendingObj: Exn)
    requires finallyObj in heap && pendingObj in heap && Closed(LinksOf(heap))
    modifies heap
    ensures Closed(LinksOf(heap))
    ensures LinksOf(heap) == Spliced(old(LinksOf(heap)), finallyObj, pendingObj)
  {
    ghost var h := LinksOf(heap);
    SpliceClosed(h, finallyObj, pendingObj);
    var cyclic, seen, cf := SeeFinallyChain(heap, finallyObj);
    if cyclic {
      return;
    }
    var refused := SharesOrLoops(heap, finallyObj, pendingObj, seen, cf);
    if refused {
      return;
    }
    var cur := finallyObj;
    WalkIsChain(h, finallyObj, {});
    forall i | 0 <= i < |cf| - 1 ensures h[cf[i]].Some? {
      assert h[cf[i]] == Some(cf[i + 1]);
    }
    ghost var k := 0;
    while cur.previous.Object?
      invariant 0 <= k < |cf| && cur == cf[k]
      modifies {}
      decreases |cf| - k
    {
      assert h[cf[k]] == Some(cur.previous.exn);
      cur := cur.previous.exn;
      k := k + 1;
    }
    assert h[cf[k]].None?;
    cur.previous := Object(pendingObj);
    assert LinksOf(heap) == h[cf[|cf| - 1] := Some(pendingObj)];
  }

  /** The pending walk met an object already seen: the chains share it, or the walk loops. */
  lemma SharedOrCyclic<R>(h: Links<R>, f: R, p: R, cf: seq<R>, cp: seq<R>, cur: R)
    requires Closed(h) && f in h && p in h && cur in h
    requires ChainOf(h, f) == Some(cf)
    requires ChainOf(h, p) == Prepend(cp, Walk(h, cur, ToSet(cp)))
    requires cur in cf || cur in cp
    ensures Spliced(h, f, p) == h
  {
    if Walk(h, cur, ToSet(cp)).Some? {
      WalkIsChain(h, cur, ToSet(cp));
      assert cur in Walk(h, cur, ToSet(cp)).value;
      assert cur in ChainOf(h, p).value;
    }
  }
}
