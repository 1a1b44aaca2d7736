/** Variables as the hash tables of core/phpv hold them: a name leads to a value in memory, directly
    or as a reference. Assigning to an ordinary variable puts a new value in its place; assigning
    to a reference, or changing a value where it lies (as `++` does), writes to the old one. */
module Variables {

  datatype Slot = Plain(address: nat) | Reference(address: nat)

  /** A write to a value that was already there. */
  datatype Hit = Hit(address: nat, value: int)

  /** The names of the running function, all values ever made, and the writes to old values. */
  datatype Memory = Memory(slots: map<nat, Slot>, heap: seq<int>, hits: seq<Hit>)

  datatype Write =
    | Assign(x: nat, value: int)     // $x = value, $x += ..., and the write-back of ++
    | Mutate(x: nat, value: int)     // the change in place that ++ and -- make first
    | Link(x: nat, y: nat)           // $x = &$y, which leaves $y as it was
    | Share(x: nat)                  // a capture by reference makes $x itself a reference
    | Unset(x: nat)

  function At(m: Memory, a: nat): int {
    if a < |m.heap| then m.heap[a] else 0
  }

  function Lookup(m: Memory, x: nat): int {
    if x in m.slots then At(m, m.slots[x].address) else 0
  }

  type Cells = map<nat, int>

  /** What expressions see of the variables. */
  function View(m: Memory): Cells {
    map x | x in m.slots :: Lookup(m, x)
  }

  function NewValue(m: Memory, x: nat, value: int): Memory {
    m.(slots := m.slots[x := Plain(|m.heap|)], heap := m.heap + [value])
  }

  function Overwrite(m: Memory, a: nat, value: int): Memory {
    if a < |m.heap| then m.(heap := m.heap[a := value], hits := m.hits + [Hit(a, value)]) else m
  }

  /** The variable in memory; one that does not exist yet is made null. */
  function Touch(m: Memory, x: nat): (r: Memory)
    ensures x in r.slots
  {
    if x in m.slots then m else NewValue(m, x, 0)
  }

  function MakeReference(m: Memory, x: nat): (r: Memory)
    ensures x in r.slots && r.slots[x].Reference?
  {
    var n := Touch(m, x);
    n.(slots := n.slots[x := Reference(n.slots[x].address)])
  }

  function Apply(m: Memory, w: Write): Memory {
    match w
    case Assign(x, v) =>
      if x in m.slots && m.slots[x].Reference? then Overwrite(m, m.slots[x].address, v) else NewValue(m, x, v)
    case Mutate(x, v) => if x in m.slots then Overwrite(m, m.slots[x].address, v) else NewValue(m, x, v)
    case Link(x, y) =>
      var n := Touch(m, y);
      n.(slots := n.slots[x := Reference(n.slots[y].address)])
    case Share(x) => MakeReference(m, x)
    case Unset(x) => m.(slots := m.slots - {x})
  }

  function ApplyAll(m: Memory, ws: seq<Write>): Memory
    decreases ws
  {
    if ws == [] then m else ApplyAll(Apply(m, ws[0]), ws[1..])
  }

  // ----- what a write does to each variable -----

  ghost predicate Separate(m: Memory, x: nat, y: nat) {
    x != y && !(x in m.slots && y in m.slots && m.slots[x].address == m.slots[y].address)
  }

  /** An assignment is seen in the variable and in whatever is a reference to the same value as it,
      if it is one itself; everything else keeps its value. */
  lemma AssignmentIsSeen(m: Memory, x: nat, v: int, y: nat)
    requires forall z :: z in m.slots ==> m.slots[z].address < |m.heap|
    ensures var n := Apply(m, Assign(x, v));
            && Lookup(n, x) == v
            && (Separate(m, x, y) ==> Lookup(n, y) == Lookup(m, y))
            && (y != x && !Separate(m, x, y) ==> Lookup(n, y) == if m.slots[x].Reference? then v else Lookup(m, y))
  {
  }

  /** A change in place is seen by all that lead to the value. */
  lemma MutationIsSeen(m: Memory, x: nat, v: int, y: nat)
    requires forall z :: z in m.slots ==> m.slots[z].address < |m.heap|
    ensures var n := Apply(m, Mutate(x, v));
            Lookup(n, x) == v && (y != x ==> Lookup(n, y) == if Separate(m, x, y) then Lookup(m, y) else v)
  {
  }

  /** After `$x = &$y` the name `$x` is a reference to the value of `$y`: what is assigned to `$x` is
      seen in `$y`, and the other way round if `$y` is a reference. */
  lemma LinkedSeeEachOther(m: Memory, x: nat, y: nat, v: int, z: nat)
    requires forall u :: u in m.slots ==> m.slots[u].address < |m.heap|
    ensures var n := Apply(m, Link(x, y));
            && Lookup(n, x) == Lookup(m, y) && (z != x ==> Lookup(n, z) == Lookup(m, z))
            && Lookup(Apply(n, Assign(x, v)), y) == v
            && (Lookup(Apply(n, Assign(y, v)), x) ==
                if x == y || (y in m.slots && m.slots[y].Reference?) then v else Lookup(m, y))
  {
  }

  /** A variable that has been unset is gone, and the others are as they were. */
  lemma UnsetIsGone(m: Memory, x: nat, y: nat)
    ensures var n := Apply(m, Unset(x)); x !in n.slots && n.heap == m.heap && (y != x ==> Lookup(n, y) == Lookup(m, y))
  {
  }

  /** Writes are made one after the other. */
  lemma {:induction false} WritesInOrder(m: Memory, a: seq<Write>, b: seq<Write>)
    ensures ApplyAll(m, a + b) == ApplyAll(ApplyAll(m, a), b)
    decreases a
  {
    if a == [] {
      assert a + b == b;
    } else {
      assert (a + b)[0] == a[0] && (a + b)[1..] == a[1..] + b;
      WritesInOrder(Apply(m, a[0]), a[1..], b);
    }
  }

  // ----- calls -----

  function MakeReferences(m: Memory, xs: seq<nat>): (r: Memory)
    ensures forall x :: x in xs || x in m.slots ==> x in r.slots
    decreases xs
  {
    if xs == [] then m else MakeReferences(MakeReference(m, xs[0]), xs[1..])
  }

  /** A function starts with the variables it shares with its caller, as reference parameters. */
  function EnterCall(m: Memory, shared: seq<nat>): Memory {
    var n := MakeReferences(m, shared);
    n.(slots := map x | x in shared :: n.slots[x])
  }

  /** The caller's names come back; the shared ones have become references. */
  function LeaveCall(m: Memory, shared: seq<nat>, end: Memory): Memory {
    end.(slots := MakeReferences(m, shared).slots)
  }

  /** Every name leads to a value. */
  ghost predicate InHeap(m: Memory) {
    forall x :: x in m.slots ==> m.slots[x].address < |m.heap|
  }

  /** What becoming references does: every variable keeps its value, those named are references, and
      the others are as they were. */
  lemma {:induction false} MadeReferences(m: Memory, xs: seq<nat>)
    requires InHeap(m)
    ensures var n := MakeReferences(m, xs);
            && (forall x :: x in xs ==> n.slots[x].Reference?)
            && (forall x :: x in m.slots && x !in xs ==> n.slots[x] == m.slots[x])
            && (forall x :: x in n.slots ==> x in m.slots || x in xs)
            && (forall x :: x in m.slots ==> n.slots[x].address == m.slots[x].address)
            && InHeap(n) && m.heap <= n.heap && (forall x :: Lookup(n, x) == Lookup(m, x))
    decreases xs
  {
    if xs != [] {
      MadeReferences(MakeReference(m, xs[0]), xs[1..]);
      assert xs == [xs[0]] + xs[1..];
    }
  }

  /** Inside a call the shared variables have the caller's values, and there are no others. */
  lemma CallSeesShared(m: Memory, shared: seq<nat>, x: nat)
    requires InHeap(m)
    ensures var n := EnterCall(m, shared);
            && (x in n.slots <==> x in shared)
            && (x in shared ==> n.slots[x].Reference? && Lookup(n, x) == Lookup(m, x))
            && (x !in shared ==> Lookup(n, x) == 0)
  {
    MadeReferences(m, shared);
  }

  /** Behind the call a shared variable is a reference, with the value that the callee's parameter
      has if it still is that reference; and an ordinary variable that the callee cannot reach has
      its own value. */
  lemma CallerSeesShared(m: Memory, shared: seq<nat>, end: Memory, x: nat)
    requires InHeap(m)
    ensures var (n, r) := (EnterCall(m, shared), LeaveCall(m, shared, end));
            && (x in shared ==> x in r.slots && r.slots[x] == n.slots[x] && r.slots[x].Reference?)
            && (x in shared && x in end.slots && end.slots[x] == n.slots[x] ==> Lookup(r, x) == Lookup(end, x))
            && (x !in shared && x in m.slots ==> x in r.slots && r.slots[x] == m.slots[x]
                                                 && Lookup(r, x) == At(end, m.slots[x].address))
            && (x in r.slots ==> x in m.slots || x in shared)
  {
    MadeReferences(m, shared);
  }

  // ----- what a stretch of writes does to a value -----

  /** The last value written to an address, or what was there. */
  function LastHit(hits: seq<Hit>, a: nat, before: int): int {
    if hits == [] then before
    else if hits[|hits| - 1].address == a then hits[|hits| - 1].value
    else LastHit(hits[..|hits| - 1], a, before)
  }

  lemma {:induction false} LastHitOfConcat(h: seq<Hit>, k: seq<Hit>, a: nat, before: int)
    ensures LastHit(h + k, a, before) == LastHit(k, a, LastHit(h, a, before))
    decreases |k|
  {
    if k == [] {
      assert h + k == h;
    } else {
      assert (h + k)[..|h + k| - 1] == h + k[..|k| - 1];
      LastHitOfConcat(h, k[..|k| - 1], a, before);
    }
  }

  /** From `m` to `n` values were added and old ones changed by the recorded writes only. */
  ghost predicate Grows(m: Memory, n: Memory) {
    && |m.heap| <= |n.heap| && m.hits <= n.hits
    && forall a :: 0 <= a < |m.heap| ==> n.heap[a] == LastHit(n.hits[|m.hits|..], a, m.heap[a])
  }

  lemma GrowsTransitive(m: Memory, n: Memory, o: Memory)
    requires Grows(m, n) && Grows(n, o)
    ensures Grows(m, o)
  {
    forall a | 0 <= a < |m.heap| ensures o.heap[a] == LastHit(o.hits[|m.hits|..], a, m.heap[a]) {
      assert o.hits[|m.hits|..] == n.hits[|m.hits|..] + o.hits[|n.hits|..];
      LastHitOfConcat(n.hits[|m.hits|..], o.hits[|n.hits|..], a, m.heap[a]);
    }
  }

  lemma OverwriteGrows(m: Memory, a: nat, v: int)
    ensures Grows(m, Overwrite(m, a, v))
  {
    var n := Overwrite(m, a, v);
    if a < |m.heap| {
      assert n.hits[|m.hits|..] == [Hit(a, v)];
      forall b | 0 <= b < |m.heap| ensures n.heap[b] == LastHit([Hit(a, v)], b, m.heap[b]) {
        assert [Hit(a, v)][..0] == [];
      }
    } else {
      GrowsAlone(m, n);
    }
  }

  lemma GrowsAlone(m: Memory, n: Memory)
    requires m.heap <= n.heap && m.hits == n.hits
    ensures Grows(m, n)
  {
    assert n.hits[|m.hits|..] == [];
  }

  lemma ApplyGrows(m: Memory, w: Write)
    ensures Grows(m, Apply(m, w))
  {
    if w.Assign? || w.Mutate? {
      if w.x in m.slots {
        OverwriteGrows(m, m.slots[w.x].address, w.value);
      }
      GrowsAlone(m, NewValue(m, w.x, w.value));
    } else {
      GrowsAlone(m, Apply(m, w));
    }
  }

  lemma {:induction false} ApplyAllGrows(m: Memory, ws: seq<Write>)
    ensures Grows(m, ApplyAll(m, ws)) && (InHeap(m) ==> InHeap(ApplyAll(m, ws)))
    decreases ws
  {
    if ws == [] {
      GrowsAlone(m, m);
    } else {
      ApplyGrows(m, ws[0]);
      ApplyAllGrows(Apply(m, ws[0]), ws[1..]);
      GrowsTransitive(m, Apply(m, ws[0]), ApplyAll(m, ws));
    }
  }

  lemma {:induction false} MakeReferencesGrows(m: Memory, xs: seq<nat>)
    ensures var n := MakeReferences(m, xs); m.heap <= n.heap && m.hits == n.hits && (InHeap(m) ==> InHeap(n))
    decreases xs
  {
    if xs != [] {
      MakeReferencesGrows(MakeReference(m, xs[0]), xs[1..]);
    }
  }

  /** A call adds what its body adds. */
  lemma CallGrows(m: Memory, shared: seq<nat>, end: Memory)
    requires Grows(EnterCall(m, shared), end)
    ensures Grows(m, LeaveCall(m, shared, end))
    ensures InHeap(m) ==> InHeap(EnterCall(m, shared)) && InHeap(LeaveCall(m, shared, end))
  {
    MakeReferencesGrows(m, shared);
    var n := EnterCall(m, shared);
    GrowsAlone(m, n);
    GrowsTransitive(m, n, end);
  }

  // ----- variables that are never references -----

  /** The write neither makes a reference to a variable in `xs` nor changes its value in place. */
  predicate Spares(w: Write, xs: set<nat>) {
    match w
    case Assign(_, _) => true
    case Mutate(x, _) => x !in xs
    case Link(x, y) => x !in xs && y !in xs
    case Share(x) => x !in xs
    case Unset(_) => true
  }

  /** No name leads to the value at `a`, except ordinary variables in `xs`. */
  ghost predicate Private(m: Memory, xs: set<nat>, a: nat) {
    a < |m.heap| && forall x :: x in m.slots && m.slots[x].address == a ==> x in xs && m.slots[x].Plain?
  }

  /** A private value stays private and as it is, and the variables in `xs` stay private. */
  ghost predicate KeepsPrivate(m: Memory, n: Memory, xs: set<nat>) {
    && |m.heap| <= |n.heap|
    && (forall a: nat :: Private(m, xs, a) ==> Private(n, xs, a) && n.heap[a] == m.heap[a])
  }

  /** The variables in `xs` are all ordinary ones, with values to themselves. */
  ghost predicate AllPrivate(m: Memory, xs: set<nat>) {
    InHeap(m) && forall x :: x in xs && x in m.slots ==> Private(m, xs, m.slots[x].address)
  }

  lemma ApplyKeepsPrivate(m: Memory, w: Write, xs: set<nat>)
    requires Spares(w, xs) && InHeap(m)
    ensures KeepsPrivate(m, Apply(m, w), xs) && (AllPrivate(m, xs) ==> AllPrivate(Apply(m, w), xs))
  {
    match w
    case Assign(x, v) => WriteKeepsPrivate(m, x, v, xs);
    case Mutate(x, v) => WriteKeepsPrivate(m, x, v, xs);
    case Link(x, y) => LinkKeepsPrivate(m, x, y, xs);
    case Share(x) => LinkKeepsPrivate(m, x, x, xs);
    case Unset(_) =>
  }

  lemma LinkKeepsPrivate(m: Memory, x: nat, y: nat, xs: set<nat>)
    requires InHeap(m) && x !in xs && y !in xs
    ensures var n := Apply(m, Link(x, y)); KeepsPrivate(m, n, xs) && (AllPrivate(m, xs) ==> AllPrivate(n, xs))
    ensures Apply(m, Share(x)) == Apply(m, Link(x, x))
  {
    TouchKeepsPrivate(m, y, xs);
  }

  lemma WriteKeepsPrivate(m: Memory, x: nat, v: int, xs: set<nat>)
    requires InHeap(m)
    ensures var n := NewValue(m, x, v); KeepsPrivate(m, n, xs) && (AllPrivate(m, xs) ==> AllPrivate(n, xs))
    ensures x in m.slots && (m.slots[x].Reference? || x !in xs) ==>
      var n := Overwrite(m, m.slots[x].address, v); KeepsPrivate(m, n, xs) && (AllPrivate(m, xs) ==> AllPrivate(n, xs))
  {
  }

  lemma TouchKeepsPrivate(m: Memory, x: nat, xs: set<nat>)
    requires InHeap(m) && x !in xs
    ensures var n := Touch(m, x);
            InHeap(n) && KeepsPrivate(m, n, xs) && (AllPrivate(m, xs) ==> AllPrivate(n, xs))
            && forall a: nat :: Private(m, xs, a) ==> n.slots[x].address != a
  {
  }

  lemma {:induction false} ApplyAllKeepsPrivate(m: Memory, ws: seq<Write>, xs: set<nat>)
    requires InHeap(m) && forall w :: w in ws ==> Spares(w, xs)
    ensures KeepsPrivate(m, ApplyAll(m, ws), xs) && (AllPrivate(m, xs) ==> AllPrivate(ApplyAll(m, ws), xs))
    decreases ws
  {
    if ws != [] {
      ApplyKeepsPrivate(m, ws[0], xs);
      ApplyAllGrows(m, [ws[0]]);
      ApplyAllKeepsPrivate(Apply(m, ws[0]), ws[1..], xs);
    }
  }

  lemma {:induction false} MakeReferencesKeepsPrivate(m: Memory, shared: seq<nat>, xs: set<nat>)
    requires InHeap(m) && forall x :: x in shared ==> x !in xs
    ensures var n := MakeReferences(m, shared);
            KeepsPrivate(m, n, xs) && (AllPrivate(m, xs) ==> AllPrivate(n, xs)) && InHeap(n)
    decreases shared
  {
    if shared != [] {
      ApplyKeepsPrivate(m, Share(shared[0]), xs);
      MakeReferencesKeepsPrivate(MakeReference(m, shared[0]), shared[1..], xs);
    }
  }

  lemma EnterKeepsPrivate(m: Memory, shared: seq<nat>, xs: set<nat>)
    requires InHeap(m) && AllPrivate(m, xs) && forall x :: x in shared ==> x !in xs
    ensures InHeap(EnterCall(m, shared)) && AllPrivate(EnterCall(m, shared), xs)
  {
    MakeReferencesKeepsPrivate(m, shared, xs);
  }

  lemma CallKeepsPrivate(m: Memory, shared: seq<nat>, end: Memory, xs: set<nat>)
    requires InHeap(m) && AllPrivate(m, xs) && forall x :: x in shared ==> x !in xs
    requires KeepsPrivate(EnterCall(m, shared), end, xs)
    ensures KeepsPrivate(m, LeaveCall(m, shared, end), xs) && AllPrivate(LeaveCall(m, shared, end), xs)
  {
    MakeReferencesKeepsPrivate(m, shared, xs);
    var n := MakeReferences(m, shared);
    forall a: nat | Private(n, xs, a) ensures Private(EnterCall(m, shared), xs, a) {
    }
  }

  // ----- assignments alone -----

  /** Some name is a reference to the value at `a`. */
  ghost predicate Exposed(m: Memory, a: nat) {
    exists y :: y in m.slots && m.slots[y] == Reference(a)
  }

  /** The references stay, and only values that one leads to have changed. */
  ghost predicate KeepsReferences(m: Memory, n: Memory) {
    && |m.heap| <= |n.heap|
    && (forall y ::
          (y in m.slots && m.slots[y].Reference?)
          || (y in n.slots && n.slots[y].Reference? && n.slots[y].address < |m.heap|) ==>
          y in m.slots && y in n.slots && m.slots[y] == n.slots[y])
    && (forall a: nat :: a < |m.heap| && !Exposed(m, a) ==> n.heap[a] == m.heap[a])
  }

  lemma {:induction false} AssignmentsKeepReferences(m: Memory, ws: seq<Write>)
    requires forall w :: w in ws ==> w.Assign?
    ensures KeepsReferences(m, ApplyAll(m, ws))
    decreases ws
  {
    if ws != [] {
      AssignKeepsReferences(m, ws[0]);
      AssignmentsKeepReferences(Apply(m, ws[0]), ws[1..]);
      KeepsReferencesTransitive(m, Apply(m, ws[0]), ApplyAll(m, ws));
    }
  }

  lemma AssignKeepsReferences(m: Memory, w: Write)
    requires w.Assign?
    ensures KeepsReferences(m, Apply(m, w))
  {
    var n := Apply(m, w);
    forall a: nat | a < |m.heap| && !Exposed(m, a) ensures n.heap[a] == m.heap[a] {
      assert w.x in m.slots && m.slots[w.x].Reference? ==> m.slots[w.x] != Reference(a);
    }
  }

  lemma KeepsReferencesTransitive(m: Memory, n: Memory, o: Memory)
    requires KeepsReferences(m, n) && KeepsReferences(n, o)
    ensures KeepsReferences(m, o)
  {
    forall a: nat | a < |m.heap| && !Exposed(m, a) ensures o.heap[a] == m.heap[a] {
      assert !Exposed(n, a);
    }
  }
}
