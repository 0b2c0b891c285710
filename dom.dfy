/**
 * The part of the browser DOM the animation engine relies on: a forest of
 * element nodes with ordered child lists, class lists, `remove()`,
 * `appendChild`/`insertBefore` with the DOM Standard's pre-insertion checks
 * (section "Mutation algorithms" of the WHATWG DOM Standard), and a log of
 * the native `element.animate(keyframes, timing)` calls and node removals,
 * in the order they happened.
 *
 * Every node is an element; text nodes are not modelled, so "first element
 * child" and "next element sibling" are the first child and the next sibling.
 */
module Dom {
  import opened JsValues
  import opened Geometry

  type Node = nat

  /** `document.documentElement` and `document.body`. */
  const Root: Node := 0
  const Body: Node := 1

  /** Keyframes passed to `element.animate`, as structured values instead of CSS strings. */
  datatype Keyframes =
    | TransformKeyframes(fromMatrix: Option<Matrix>, toMatrix: Option<Matrix>)// [{transform: from}, {transform: to}]
    | SizeKeyframes(zeroAtOffset: real)                            // [{width: 0, height: 0, offset}]
    | BumpKeyframes(liftY: real, scale: real, offset: real)        // [{transform: translate(0, liftY px) scale(s), offset}]
    | OpacityKeyframes(fromOpacity: real, toOpacity: real)       // [{opacity: from}, {opacity: to}]
    | CustomKeyframes(id: nat)                                     // keyframes supplied by the caller

  /** The timing options the engine passes (`iterations` is always 1). */
  datatype Timing = Timing(duration: real, easing: string)

  datatype DomEvent =
    | Animated(target: Node, keyframes: Keyframes, timing: Timing)
    | Removed(node: Node)

  // ----- sequences of child nodes -----

  predicate NoDuplicates(s: seq<Node>) {
    forall i, j :: 0 <= i < j < |s| ==> s[i] != s[j]
  }

  /** The position of `x` in `s` (its first position). */
  function IndexOf(s: seq<Node>, x: Node): (i: nat)
    requires x in s
    ensures i < |s| && s[i] == x
    ensures forall k :: 0 <= k < i ==> s[k] != x
  {
    if s[0] == x then 0 else 1 + IndexOf(s[1..], x)
  }

  /** `s` without `x`, order kept. */
  function Without(s: seq<Node>, x: Node): (r: seq<Node>)
    ensures forall y :: y in r <==> y in s && y != x
    ensures NoDuplicates(s) ==> NoDuplicates(r)
    ensures x !in s ==> r == s
  {
    if |s| == 0 then []
    else
      var rest := Without(s[1..], x);
      if s[0] == x then rest
      else
        assert NoDuplicates(s) ==> s[0] !in s[1..] by {
          forall k | 0 <= k < |s| - 1 ensures NoDuplicates(s) ==> s[1..][k] != s[0] {
            assert s[1..][k] == s[k + 1];
          }
        }
        [s[0]] + rest
  }

  /** `s` with `x` inserted before `ref`, or at the end when `ref` is null or not in `s`. */
  function InsertBefore(s: seq<Node>, x: Node, ref: Option<Node>): (r: seq<Node>)
    ensures |r| == |s| + 1
    ensures forall y :: y in r <==> y in s || y == x
  {
    if ref.Some? && ref.value in s then
      var i := IndexOf(s, ref.value);
      assert s == s[..i] + s[i..];
      s[..i] + [x] + s[i..]
    else s + [x]
  }

  /** `x` comes before `y` in `s`. */
  predicate Precedes(s: seq<Node>, x: Node, y: Node) {
    x in s && y in s && IndexOf(s, x) < IndexOf(s, y)
  }

  /** `x` immediately precedes `y` in `s`. */
  predicate Adjacent(s: seq<Node>, x: Node, y: Node) {
    exists i :: 0 <= i < |s| - 1 && s[i] == x && s[i + 1] == y
  }

  lemma {:induction false} InsertBeforePlaces(s: seq<Node>, x: Node, ref: Option<Node>)
    requires x !in s
    ensures var r := InsertBefore(s, x, ref);
            (ref.Some? && ref.value in s ==> Adjacent(r, x, ref.value)) &&
            (ref.None? || ref.value !in s ==> r[|r| - 1] == x)
  {
    if ref.Some? && ref.value in s {
      var i := IndexOf(s, ref.value);
      var r := InsertBefore(s, x, ref);
      assert r[i] == x && r[i + 1] == ref.value;
    }
  }

  lemma InsertBeforeNoDuplicates(s: seq<Node>, x: Node, ref: Option<Node>)
    requires NoDuplicates(s) && x !in s
    ensures NoDuplicates(InsertBefore(s, x, ref))
  {
    var r := InsertBefore(s, x, ref);
    if ref.Some? && ref.value in s {
      var i := IndexOf(s, ref.value);
      assert r == s[..i] + [x] + s[i..];
      forall a, b | 0 <= a < b < |r| ensures r[a] != r[b] {
        if a < i && b < i { assert r[a] == s[a] && r[b] == s[b]; }
        else if a < i && b == i { assert r[a] == s[a]; assert s[a] in s; }
        else if a < i { assert r[a] == s[a] && r[b] == s[b - 1]; }
        else if a == i { assert r[b] == s[b - 1]; assert s[b - 1] in s; }
        else { assert r[a] == s[a - 1] && r[b] == s[b - 1]; }
      }
    } else {
      forall a, b | 0 <= a < b < |r| ensures r[a] != r[b] {
        if b == |s| { assert r[a] == s[a]; assert s[a] in s; }
      }
    }
  }

  /** Removing a node just appended to a list it was not in gives the list back. */
  lemma {:induction false} WithoutAppended(s: seq<Node>, x: Node)
    requires x !in s
    ensures Without(s + [x], x) == s
  {
    if |s| > 0 {
      assert (s + [x])[1..] == s[1..] + [x];
      WithoutAppended(s[1..], x);
    }
  }

  /** Removing another node keeps the relative order of two nodes. */
  lemma {:induction false} WithoutKeepsOrder(s: seq<Node>, z: Node, x: Node, y: Node)
    requires Precedes(s, x, y) && z != x && z != y
    ensures Precedes(Without(s, z), x, y)
  {
    if s[0] == z {
      assert Without(s, z) == Without(s[1..], z);
      WithoutKeepsOrder(s[1..], z, x, y);
    } else if s[0] == x {
      assert Without(s, z)[0] == x;
    } else {
      assert s[0] != y;
      var r := Without(s, z);
      assert r == [s[0]] + Without(s[1..], z);
      WithoutKeepsOrder(s[1..], z, x, y);
      assert IndexOf(r, x) == 1 + IndexOf(Without(s[1..], z), x);
      assert IndexOf(r, y) == 1 + IndexOf(Without(s[1..], z), y);
    }
  }

  /** The position of a node of `s` in `s` with another node inserted. */
  lemma InsertBeforeIndex(s: seq<Node>, w: Node, ref: Option<Node>, x: Node)
    requires x in s && w !in s
    ensures var r := InsertBefore(s, w, ref);
            x in r &&
            IndexOf(r, x) == (if ref.Some? && ref.value in s && IndexOf(s, ref.value) <= IndexOf(s, x)
                              then IndexOf(s, x) + 1 else IndexOf(s, x))
  {
    var r := InsertBefore(s, w, ref);
    var ix := IndexOf(s, x);
    if ref.Some? && ref.value in s {
      var i := IndexOf(s, ref.value);
      assert r == s[..i] + [w] + s[i..];
      if i <= ix {
        assert r[ix + 1] == x;
        forall k | 0 <= k < ix + 1 ensures r[k] != x {
          if k < i { assert r[k] == s[k]; } else if k > i { assert r[k] == s[k - 1]; }
        }
      } else {
        assert r[ix] == x;
        forall k | 0 <= k < ix ensures r[k] != x { assert r[k] == s[k]; }
      }
    } else {
      assert r[ix] == x;
      forall k | 0 <= k < ix ensures r[k] != x { assert r[k] == s[k]; }
    }
  }

  /** Inserting another node keeps the relative order of two nodes. */
  lemma InsertBeforeKeepsOrder(s: seq<Node>, w: Node, ref: Option<Node>, x: Node, y: Node)
    requires Precedes(s, x, y) && w !in s
    ensures Precedes(InsertBefore(s, w, ref), x, y)
  {
    InsertBeforeIndex(s, w, ref, x);
    InsertBeforeIndex(s, w, ref, y);
  }

  /** An adjacent pair is in order. */
  lemma AdjacentPrecedes(s: seq<Node>, x: Node, y: Node)
    requires NoDuplicates(s) && Adjacent(s, x, y)
    ensures Precedes(s, x, y)
  {
    var i :| 0 <= i < |s| - 1 && s[i] == x && s[i + 1] == y;
    assert IndexOf(s, x) == i;
    assert IndexOf(s, y) == i + 1;
  }

  /** `x` is right before `ref` in `s`, or last when `ref` is null: where `insertBefore(x, ref)` leaves it. */
  predicate RightBefore(s: seq<Node>, x: Node, ref: Option<Node>) {
    && (ref.Some? ==> Adjacent(s, x, ref.value))
    && (ref.None? ==> |s| > 0 && s[|s| - 1] == x)
  }

  /** The end of the stretch after `x`: the position of `ref`, or the length of `s` for a null `ref`. */
  function Bound(s: seq<Node>, ref: Option<Node>): nat {
    if ref.Some? && ref.value in s then IndexOf(s, ref.value) else |s|
  }

  /**
   * `x` comes before `ref` (or anywhere, for a null `ref`), and every node
   * between them (after it, for a null `ref`) is in `skip`: once the nodes
   * of `skip` are gone, `x` is right before `ref`.
   */
  predicate PlacedBefore(s: seq<Node>, x: Node, ref: Option<Node>, skip: set<Node>) {
    && x in s
    && (ref.Some? ==> ref.value in s && IndexOf(s, x) < IndexOf(s, ref.value))
    && forall k :: IndexOf(s, x) < k < Bound(s, ref) ==> s[k] in skip
  }

  /** In a list without repeats, the position of a node is where it is found. */
  lemma IndexOfAt(s: seq<Node>, x: Node, i: nat)
    requires NoDuplicates(s) && i < |s| && s[i] == x
    ensures IndexOf(s, x) == i
  {
  }

  lemma RightBeforePlaced(s: seq<Node>, x: Node, ref: Option<Node>, skip: set<Node>)
    requires NoDuplicates(s) && RightBefore(s, x, ref)
    ensures PlacedBefore(s, x, ref, skip)
  {
    if ref.Some? {
      var i :| 0 <= i < |s| - 1 && s[i] == x && s[i + 1] == ref.value;
      IndexOfAt(s, x, i);
      IndexOfAt(s, ref.value, i + 1);
    } else {
      IndexOfAt(s, x, |s| - 1);
    }
  }

  /** With no node of `skip` left in the list, `x` is right before `ref`. */
  lemma PlacedClean(s: seq<Node>, x: Node, ref: Option<Node>, skip: set<Node>)
    requires NoDuplicates(s) && PlacedBefore(s, x, ref, skip)
    requires forall n :: n in skip ==> n !in s
    ensures RightBefore(s, x, ref)
  {
    var i := IndexOf(s, x);
    if i + 1 < |s| {
      assert s[i + 1] !in skip;
    }
  }

  /** `s` without one of its nodes, as a splice. */
  lemma {:induction false} WithoutAt(s: seq<Node>, z: Node)
    requires NoDuplicates(s) && z in s
    ensures Without(s, z) == s[..IndexOf(s, z)] + s[IndexOf(s, z) + 1..]
  {
    if s[0] == z {
      assert z !in s[1..] by {
        forall k | 0 <= k < |s| - 1 ensures s[1..][k] != z {
          assert s[1..][k] == s[k + 1];
        }
      }
    } else {
      assert NoDuplicates(s[1..]) by {
        forall a, b | 0 <= a < b < |s| - 1 ensures s[1..][a] != s[1..][b] {
          assert s[1..][a] == s[a + 1] && s[1..][b] == s[b + 1];
        }
      }
      WithoutAt(s[1..], z);
      var j := IndexOf(s[1..], z);
      assert IndexOf(s, z) == j + 1;
      assert s[..j + 1] == [s[0]] + s[1..][..j];
      assert s[j + 2..] == s[1..][j + 1..];
    }
  }

  /** Placement read off positions: `x` at `i`, `ref` at `b` (the length, for a null `ref`), nodes of `skip` between. */
  lemma PlacedAt(s: seq<Node>, x: Node, ref: Option<Node>, skip: set<Node>, i: nat, b: nat)
    requires NoDuplicates(s) && i < b <= |s| && s[i] == x
    requires ref.Some? ==> b < |s| && s[b] == ref.value
    requires ref.None? ==> b == |s|
    requires forall k :: i < k < b ==> s[k] in skip
    ensures PlacedBefore(s, x, ref, skip)
  {
    IndexOfAt(s, x, i);
    if ref.Some? {
      IndexOfAt(s, ref.value, b);
    }
  }

  /** `t` is `s` with its node at `j` cut out. */
  predicate CutAt(s: seq<Node>, t: seq<Node>, j: nat) {
    && |s| == |t| + 1 && j < |s|
    && (forall k :: 0 <= k < j ==> t[k] == s[k])
    && (forall k :: j <= k < |t| ==> t[k] == s[k + 1])
  }

  /** Cutting out a node other than `x` and `ref` keeps `x` placed before `ref`. */
  lemma PlacedCut(s: seq<Node>, t: seq<Node>, j: nat, x: Node, ref: Option<Node>, skip: set<Node>)
    requires NoDuplicates(s) && NoDuplicates(t) && CutAt(s, t, j)
    requires PlacedBefore(s, x, ref, skip) && s[j] != x && ref != Some(s[j])
    ensures PlacedBefore(t, x, ref, skip)
  {
    var i, b := IndexOf(s, x), Bound(s, ref);
    var i', b' := if j < i then i - 1 else i, if j < b then b - 1 else b;
    assert t[i'] == x;
    assert ref.Some? ==> t[b'] == ref.value;
    forall k | i' < k < b' ensures t[k] in skip {
      if k < j {
        assert t[k] == s[k];
      } else {
        assert t[k] == s[k + 1];
      }
    }
    PlacedAt(t, x, ref, skip, i', b');
  }

  /** Slicing out position `j` is a cut at `j`. */
  lemma SliceCut(s: seq<Node>, j: nat)
    requires j < |s|
    ensures CutAt(s, s[..j] + s[j + 1..], j)
  {
  }

  /** Removing a node other than `x` and `ref` keeps `x` placed before `ref`. */
  lemma PlacedWithout(s: seq<Node>, z: Node, x: Node, ref: Option<Node>, skip: set<Node>)
    requires NoDuplicates(s) && PlacedBefore(s, x, ref, skip) && z != x && ref != Some(z)
    ensures PlacedBefore(Without(s, z), x, ref, skip)
  {
    if z in s {
      var j, t := IndexOf(s, z), Without(s, z);
      WithoutAt(s, z);
      SliceCut(s, j);
      PlacedCut(s, t, j, x, ref, skip);
    }
  }

  /** `t` is `s` with a node put in at `j`. */
  predicate SplicedAt(s: seq<Node>, t: seq<Node>, j: nat) {
    && |t| == |s| + 1 && j <= |s|
    && (forall k :: 0 <= k < j ==> t[k] == s[k])
    && (forall k :: j < k < |t| ==> t[k] == s[k - 1])
  }

  /** Putting a node of `skip` in anywhere keeps `x` placed before `ref`. */
  lemma PlacedSplice(s: seq<Node>, t: seq<Node>, j: nat, x: Node, ref: Option<Node>, skip: set<Node>)
    requires NoDuplicates(s) && NoDuplicates(t) && SplicedAt(s, t, j) && t[j] in skip
    requires PlacedBefore(s, x, ref, skip)
    ensures PlacedBefore(t, x, ref, skip)
  {
    var i, b := IndexOf(s, x), Bound(s, ref);
    var i', b' := if j <= i then i + 1 else i, if j <= b then b + 1 else b;
    assert t[i'] == x;
    assert ref.Some? ==> t[b'] == ref.value;
    forall k | i' < k < b' ensures t[k] in skip {
      if k < j {
        assert t[k] == s[k];
      } else if k > j {
        assert t[k] == s[k - 1];
      }
    }
    PlacedAt(t, x, ref, skip, i', b');
  }

  /** `InsertBefore` as a splice at the position of the reference (the end, when it is missing). */
  lemma InsertBeforeSpliced(s: seq<Node>, z: Node, at: Option<Node>)
    ensures var j := if at.Some? && at.value in s then IndexOf(s, at.value) else |s|;
            SplicedAt(s, InsertBefore(s, z, at), j) && InsertBefore(s, z, at)[j] == z
  {
  }

  /** Inserting a node of `skip` anywhere keeps `x` placed before `ref`. */
  lemma PlacedInsert(s: seq<Node>, z: Node, at: Option<Node>, x: Node, ref: Option<Node>, skip: set<Node>)
    requires NoDuplicates(s) && PlacedBefore(s, x, ref, skip) && z !in s && z in skip
    ensures PlacedBefore(InsertBefore(s, z, at), x, ref, skip)
  {
    InsertBeforeNoDuplicates(s, z, at);
    InsertBeforeSpliced(s, z, at);
    var j := if at.Some? && at.value in s then IndexOf(s, at.value) else |s|;
    PlacedSplice(s, InsertBefore(s, z, at), j, x, ref, skip);
  }

  /** Inserting `x` right before a node `g` of `skip` that is placed before `ref` places `x` before `ref`. */
  lemma PlacedInFront(s: seq<Node>, x: Node, g: Node, ref: Option<Node>, skip: set<Node>)
    requires NoDuplicates(s) && PlacedBefore(s, g, ref, skip) && g in skip && x !in s
    ensures PlacedBefore(InsertBefore(s, x, Some(g)), x, ref, skip)
  {
    var t := InsertBefore(s, x, Some(g));
    var i, b := IndexOf(s, g), Bound(s, ref);
    InsertBeforeNoDuplicates(s, x, Some(g));
    InsertBeforeSpliced(s, x, Some(g));
    assert ref.Some? ==> t[b + 1] == ref.value;
    forall k | i < k < b + 1 ensures t[k] in skip {
      assert t[k] == s[k - 1];
    }
    PlacedAt(t, x, ref, skip, i, b + 1);
  }

  // ----- the tree as two maps -----

  /**
   * Child lists and parent pointers agree: every child has its list's owner
   * as parent, every parented node is in its parent's list, no list repeats.
   */
  ghost predicate Consistent(children: map<Node, seq<Node>>, parent: map<Node, Node>) {
    && (forall c :: c in parent ==> c in children && parent[c] in children && c in children[parent[c]])
    && (forall p, c :: p in children && c in children[p] ==> c in parent && parent[c] == p)
    && (forall p :: p in children ==> NoDuplicates(children[p]))
  }

  /** `node.parentElement`. */
  function ParentOf(parent: map<Node, Node>, n: Node): Option<Node> {
    if n in parent then Some(parent[n]) else None
  }

  /** `node.remove()` on the child lists: the node leaves its parent's list. */
  function Detached(children: map<Node, seq<Node>>, parent: map<Node, Node>, x: Node): map<Node, seq<Node>>
    requires x in parent ==> parent[x] in children
  {
    if x in parent then children[parent[x] := Without(children[parent[x]], x)] else children
  }

  /** Pre-insert, after the checks: `x` leaves its parent and enters `to`'s list before `ref`. */
  function Moved(children: map<Node, seq<Node>>, parent: map<Node, Node>, x: Node, to: Node, ref: Option<Node>)
    : map<Node, seq<Node>>
    requires to in children && (x in parent ==> parent[x] in children)
  {
    var detached := Detached(children, parent, x);
    detached[to := InsertBefore(detached[to], x, ref)]
  }

  lemma DetachedConsistent(children: map<Node, seq<Node>>, parent: map<Node, Node>, x: Node)
    requires Consistent(children, parent) && x in children
    ensures Consistent(Detached(children, parent, x), parent - {x})
    ensures forall p :: p in children ==> x !in Detached(children, parent, x)[p]
  {
    var c' := Detached(children, parent, x);
    forall p | p in children ensures x !in c'[p] {
      if x in parent && p == parent[x] {
      } else if x in children[p] {
        assert false;
      }
    }
  }

  /** Detaching `x` leaves every other membership in a child list as it was. */
  lemma DetachedMembers(children: map<Node, seq<Node>>, parent: map<Node, Node>, x: Node, p: Node, c: Node)
    requires Consistent(children, parent) && p in children && c != x
    ensures p in Detached(children, parent, x)
    ensures c in Detached(children, parent, x)[p] <==> c in children[p]
  {
  }

  lemma MovedConsistent(children: map<Node, seq<Node>>, parent: map<Node, Node>, x: Node, to: Node, ref: Option<Node>)
    requires Consistent(children, parent) && x in children && to in children
    ensures Consistent(Moved(children, parent, x, to, ref), parent[x := to])
  {
    DetachedConsistent(children, parent, x);
    var detached := Detached(children, parent, x);
    var c' := Moved(children, parent, x, to, ref);
    var p' := parent[x := to];
    assert c' == detached[to := InsertBefore(detached[to], x, ref)];
    InsertBeforeNoDuplicates(detached[to], x, ref);
    forall c | c in p' ensures c in c' && p'[c] in c' && c in c'[p'[c]] {
      if c != x {
        DetachedMembers(children, parent, x, parent[c], c);
      }
    }
    forall p, c | p in c' && c in c'[p] ensures c in p' && p'[c] == p {
      if c != x {
        DetachedMembers(children, parent, x, p, c);
      }
    }
  }

  /**
   * The moved node ends in `to`'s list, right before `ref` when `ref` is in
   * that list (after the node left its old place), else last.
   */
  lemma MovedPlaces(children: map<Node, seq<Node>>, parent: map<Node, Node>, x: Node, to: Node, ref: Option<Node>)
    requires Consistent(children, parent) && x in children && to in children
    ensures var detached := Detached(children, parent, x);
            var r := Moved(children, parent, x, to, ref)[to];
            (ref.Some? && ref.value in detached[to] ==> Adjacent(r, x, ref.value)) &&
            (ref.None? || ref.value !in detached[to] ==> r[|r| - 1] == x)
  {
    DetachedConsistent(children, parent, x);
    InsertBeforePlaces(Detached(children, parent, x)[to], x, ref);
  }

  /** Moving a third node into `to`'s list keeps two children of `to` in their order. */
  lemma MovedKeepsOrder(children: map<Node, seq<Node>>, parent: map<Node, Node>, x: Node, to: Node, ref: Option<Node>,
                        a: Node, b: Node)
    requires Consistent(children, parent) && x in children && to in children
    requires Precedes(children[to], a, b) && x != a && x != b
    ensures Precedes(Moved(children, parent, x, to, ref)[to], a, b)
  {
    DetachedConsistent(children, parent, x);
    DetachedKeepsOrder(children, parent, x, to, a, b);
    InsertBeforeKeepsOrder(Detached(children, parent, x)[to], x, ref, a, b);
  }

  /** Removing a node other than `x` and `ref` keeps `x` placed before `ref` in every list. */
  lemma DetachedPlaced(children: map<Node, seq<Node>>, parent: map<Node, Node>, z: Node, q: Node, x: Node,
                       ref: Option<Node>, skip: set<Node>)
    requires Consistent(children, parent) && q in children && PlacedBefore(children[q], x, ref, skip)
    requires z != x && ref != Some(z)
    ensures q in Detached(children, parent, z) && PlacedBefore(Detached(children, parent, z)[q], x, ref, skip)
  {
    if z in parent && parent[z] == q {
      PlacedWithout(children[q], z, x, ref, skip);
    }
  }

  /** Once no node of `skip` has a parent, a child placed before `ref` is right before it. */
  lemma PlacedSettled(children: map<Node, seq<Node>>, parent: map<Node, Node>, q: Node, x: Node, ref: Option<Node>,
                      skip: set<Node>)
    requires Consistent(children, parent) && q in children && PlacedBefore(children[q], x, ref, skip)
    requires forall n :: n in skip ==> n !in parent
    ensures RightBefore(children[q], x, ref)
  {
    PlacedClean(children[q], x, ref, skip);
  }

  /** Moving `x` in front of a node `g` of `skip` that is placed before `ref` places `x` before `ref`. */
  lemma MovedInFront(children: map<Node, seq<Node>>, parent: map<Node, Node>, x: Node, to: Node, g: Node,
                     ref: Option<Node>, skip: set<Node>)
    requires Consistent(children, parent) && x in children && to in children
    requires PlacedBefore(children[to], g, ref, skip) && g in skip && g != x && ref != Some(x)
    ensures PlacedBefore(Moved(children, parent, x, to, Some(g))[to], x, ref, skip)
  {
    DetachedConsistent(children, parent, x);
    DetachedPlaced(children, parent, x, to, g, ref, skip);
    PlacedInFront(Detached(children, parent, x)[to], x, g, ref, skip);
  }

  // ----- walking up the tree -----

  /** `n` and its ancestors, nearest first, at most `fuel` nodes. */
  function InclusiveAncestors(parent: map<Node, Node>, n: Node, fuel: nat): (r: seq<Node>)
    ensures fuel > 0 ==> |r| > 0 && r[0] == n
    decreases fuel
  {
    if fuel == 0 then []
    else if n in parent then [n] + InclusiveAncestors(parent, parent[n], fuel - 1)
    else [n]
  }

  /** A node that is nobody's parent is an inclusive ancestor of no other node. */
  lemma {:induction false} NotAParentNotAncestor(parent: map<Node, Node>, n: Node, x: Node, fuel: nat)
    requires x != n && forall c :: c in parent ==> parent[c] != x
    ensures x !in InclusiveAncestors(parent, n, fuel)
    decreases fuel
  {
    if fuel > 0 && n in parent {
      NotAParentNotAncestor(parent, parent[n], x, fuel - 1);
    }
  }

  /** Detaching a third node keeps two children of `p` in their order. */
  lemma DetachedKeepsOrder(children: map<Node, seq<Node>>, parent: map<Node, Node>, z: Node, p: Node, x: Node, y: Node)
    requires Consistent(children, parent) && p in children && Precedes(children[p], x, y) && z != x && z != y
    ensures p in Detached(children, parent, z) && Precedes(Detached(children, parent, z)[p], x, y)
  {
    if z in parent && parent[z] == p {
      WithoutKeepsOrder(children[p], z, x, y);
    }
  }

  /**
   * The nodes getRotationAndScaleMatrix visits: from `start` upwards while
   * the node is set and is not `stop` (the document element).
   */
  function ChainUpTo(parent: map<Node, Node>, start: Option<Node>, stop: Node, fuel: nat): seq<Node>
    decreases fuel
  {
    if fuel == 0 || start.None? || start.value == stop then []
    else [start.value] + ChainUpTo(parent, ParentOf(parent, start.value), stop, fuel - 1)
  }

  class Document {
    var children: map<Node, seq<Node>>
    var parent: map<Node, Node>
    var classes: map<Node, set<string>>
    var nextId: nat
    var log: seq<DomEvent>

    const root: Node := Root
    const body: Node := Body

    ghost predicate Valid()
      reads this
    {
      && (forall n: Node :: n in children <==> n < nextId)
      && (forall n: Node :: n in classes <==> n < nextId)
      && root in children && body in children
      && Consistent(children, parent)
    }

    predicate Exists(n: Node)
      reads this
    {
      n < nextId
    }

    /** `document.contains(n)`: the root is among `n`'s inclusive ancestors. */
    function Contains(n: Node): bool
      reads this
    {
      root in InclusiveAncestors(parent, n, nextId)
    }

    /** `n.nextElementSibling`. */
    function NextSibling(n: Node): (r: Option<Node>)
      reads this
      requires Valid()
      ensures r.Some? ==> n in parent && r.value in children[parent[n]] && r.value != n
      ensures r.Some? ==> r.value < nextId && r.value in parent && parent[r.value] == parent[n]
    {
      if n in parent && parent[n] in children && n in children[parent[n]] then
        var s := children[parent[n]];
        var i := IndexOf(s, n);
        if i + 1 < |s| then
          assert s[i + 1] in children[parent[n]];
          assert s[i + 1] in parent && s[i + 1] in children;
          Some(s[i + 1])
        else None
      else None
    }

    /** `n.firstElementChild`. */
    function FirstChild(n: Node): (r: Option<Node>)
      reads this
      requires Valid()
      ensures r.Some? ==> n in children && r.value in children[n]
    {
      if n in children && |children[n]| > 0 then Some(children[n][0]) else None
    }

    predicate HasClass(n: Node, name: string)
      reads this
    {
      n in classes && name in classes[n]
    }

    /** A document with an empty body. */
    constructor ()
      ensures Valid() && nextId == 2 && log == []
      ensures children == map[0 := [1], 1 := []] && parent == map[1 := 0]
    {
      children := map[0 := [1], 1 := []];
      parent := map[1 := 0];
      classes := map[0 := {}, 1 := {}];
      nextId := 2;
      log := [];
      new;
      forall n: Node ensures n in children <==> n < nextId {
        if n < 2 { assert n == 0 || n == 1; }
      }
      forall n: Node ensures n in classes <==> n < nextId {
        if n < 2 { assert n == 0 || n == 1; }
      }
    }

    /** `document.createElement('div')`: a new node, detached, without children or classes. */
    method CreateElement() returns (n: Node)
      requires Valid()
      modifies this
      ensures Valid()
      ensures n == old(nextId) && nextId == n + 1
      ensures children == old(children)[n := []] && parent == old(parent)
      ensures classes == old(classes)[n := {}] && log == old(log)
    {
      n := nextId;
      children := children[n := []];
      classes := classes[n := {}];
      nextId := nextId + 1;
      assert Consistent(children, parent) by {
        forall c | c in parent ensures c in children[parent[c]] {
          assert c in old(children)[old(parent)[c]];
        }
        forall p, c | p in children && c in children[p] ensures c in parent && parent[c] == p {
          if p != n { assert c in old(children)[p]; }
        }
      }
    }

    /** `n.classList.add(name)`. */
    method AddClass(n: Node, name: string)
      requires Valid() && Exists(n)
      modifies this
      ensures Valid()
      ensures classes == old(classes)[n := old(classes)[n] + {name}]
      ensures children == old(children) && parent == old(parent) && nextId == old(nextId) && log == old(log)
    {
      classes := classes[n := classes[n] + {name}];
    }

    /** `x.remove()`: detaches `x` from its parent, if it has one. */
    method Remove(x: Node)
      requires Valid() && Exists(x)
      modifies this
      ensures Valid()
      ensures children == Detached(old(children), old(parent), x) && parent == old(parent) - {x}
      ensures classes == old(classes) && nextId == old(nextId)
      ensures log == old(log) + [Removed(x)]
    {
      DetachedConsistent(children, parent, x);
      children := Detached(children, parent, x);
      parent := parent - {x};
      log := log + [Removed(x)];
    }

    /**
     * `to.insertBefore(x, ref)` (`to.appendChild(x)` when `ref` is None),
     * with the pre-insertion checks: `to` null is a TypeError, `x` an
     * inclusive ancestor of `to` a HierarchyRequestError, `ref` not a child
     * of `to` a NotFoundError; a reference equal to `x` becomes `x`'s next
     * sibling.
     */
    method InsertNode(x: Node, to: Option<Node>, ref: Option<Node>) returns (r: Outcome)
      requires Valid() && Exists(x) && (to.Some? ==> Exists(to.value))
      modifies this
      ensures Valid()
      ensures classes == old(classes) && nextId == old(nextId) && log == old(log)
      ensures r.Pass? <==> InsertAllowed(old(parent), old(nextId), x, to, ref)
      ensures to.None? ==> r == Fail(TypeError)
      ensures r.Fail? && to.Some? ==>
                r.error == (if x in InclusiveAncestors(old(parent), to.value, old(nextId)) then HierarchyRequestError
                            else NotFoundError)
      ensures r.Fail? ==> children == old(children) && parent == old(parent)
      ensures r.Pass? ==> parent == old(parent)[x := to.value] &&
                          children == Moved(old(children), old(parent), x, to.value,
                                            EffectiveReference(old(children), old(parent), x, ref))
    {
      if to.None? {
        return Fail(TypeError);
      }
      if x in InclusiveAncestors(parent, to.value, nextId) {
        return Fail(HierarchyRequestError);
      }
      if ref.Some? && (ref.value !in parent || parent[ref.value] != to.value) {
        return Fail(NotFoundError);
      }
      var reference := EffectiveReference(children, parent, x, ref);
      MovedConsistent(children, parent, x, to.value, reference);
      children := Moved(children, parent, x, to.value, reference);
      parent := parent[x := to.value];
      r := Pass;
    }

    /** `target.animate(keyframes, timing)`: the native animation starts (and later finishes). */
    method Animate(target: Node, keyframes: Keyframes, timing: Timing)
      requires Valid()
      modifies this
      ensures Valid()
      ensures children == old(children) && parent == old(parent) && classes == old(classes)
      ensures nextId == old(nextId) && log == old(log) + [Animated(target, keyframes, timing)]
    {
      log := log + [Animated(target, keyframes, timing)];
    }
  }

  /** The pre-insertion checks pass. */
  predicate InsertAllowed(parent: map<Node, Node>, nextId: nat, x: Node, to: Option<Node>, ref: Option<Node>) {
    && to.Some?
    && x !in InclusiveAncestors(parent, to.value, nextId)
    && (ref.Some? ==> ref.value in parent && parent[ref.value] == to.value)
  }

  /** The reference child of pre-insert: `ref`, or `x`'s next sibling when `ref` is `x` itself. */
  function EffectiveReference(children: map<Node, seq<Node>>, parent: map<Node, Node>, x: Node, ref: Option<Node>)
    : Option<Node>
  {
    if ref == Some(x) then
      if x in parent && parent[x] in children && x in children[parent[x]] then
        var s := children[parent[x]];
        var i := IndexOf(s, x);
        if i + 1 < |s| then Some(s[i + 1]) else None
      else None
    else ref
  }
}
