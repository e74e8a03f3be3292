/** Removal of empty values from a YAML tree (cmd/cli/yaml_prune.go): what one pass computes, what
    repeated passes converge to, and what no pass may lose. */
module YamlPrune {

  datatype Kind = DocumentNode | MappingNode | SequenceNode | ScalarNode | AliasNode

  /** A mapping's content is the flat list key, value, key, value, ... */
  datatype Tree = Tree(kind: Kind, value: string, content: seq<Tree>)

  predicate IsEmpty(t: Tree) {
    match t.kind
    case ScalarNode => t.value in {"", "0", "0s", "null"}
    case SequenceNode => t.content == []
    case MappingNode => t.content == []
    case _ => false
  }

  /** Which values are dropped: a scalar spelt as nothing, 0, 0s or null, and a sequence or mapping
      without content. A document or an alias never is. */
  lemma IsEmptyIff(t: Tree)
    ensures IsEmpty(t)
       <==> || (t.kind == ScalarNode && (t.value == "" || t.value == "0" || t.value == "0s" || t.value == "null"))
            || ((t.kind == SequenceNode || t.kind == MappingNode) && |t.content| == 0)
  {
  }

  /** Mappings hold pairs. */
  predicate WellFormed(t: Tree) {
    && (t.kind.MappingNode? ==> |t.content| % 2 == 0)
    && forall c <- t.content :: WellFormed(c)
  }

  predicate Recurses(kind: Kind) { kind.DocumentNode? || kind.SequenceNode? }

  /** One pass: emptiness of a value is tested before the value itself is pruned. Keys stay. */
  function Prune(t: Tree): Tree
    decreases t
  {
    if Recurses(t.kind) then t.(content := PruneAll(t.content))
    else if t.kind.MappingNode? then t.(content := PrunePairs(t.content))
    else t
  }

  function PruneAll(ts: seq<Tree>): (r: seq<Tree>)
    ensures |r| == |ts|
    decreases ts
  {
    if ts == [] then [] else [Prune(ts[0])] + PruneAll(ts[1..])
  }

  function PrunePairs(ts: seq<Tree>): (r: seq<Tree>)
    ensures |r| <= |ts| && |r| % 2 == 0
    decreases ts
  {
    if |ts| < 2 then []
    else if IsEmpty(ts[1]) then PrunePairs(ts[2..])
    else [ts[0], Prune(ts[1])] + PrunePairs(ts[2..])
  }

  /** A pass prunes every item of a sequence or document in its place. */
  lemma {:induction false} ItemsArePruned(ts: seq<Tree>, i: nat)
    requires i < |ts|
    ensures PruneAll(ts)[i] == Prune(ts[i])
  {
    if i > 0 { ItemsArePruned(ts[1..], i - 1); }
  }

  /** Of a mapping it keeps, in order, the pairs whose value is not dropped: the key as it is, the value
      pruned. */
  lemma {:induction false} PairsAreFiltered(ts: seq<Tree>, more: seq<Tree>)
    requires |ts| % 2 == 0
    ensures PrunePairs(ts + more) == PrunePairs(ts) + PrunePairs(more)
    decreases ts
  {
    if ts == [] {
      assert ts + more == more;
    } else {
      assert (ts + more)[2..] == ts[2..] + more && (ts + more)[1] == ts[1] && (ts + more)[0] == ts[0];
      PairsAreFiltered(ts[2..], more);
    }
  }

  lemma OnePair(key: Tree, value: Tree)
    ensures PrunePairs([key, value]) == if IsEmpty(value) then [] else [key, Prune(value)]
  {
    assert [key, value][2..] == [];
  }

  function Passes(t: Tree, n: nat): Tree {
    if n == 0 then t else Prune(Passes(t, n - 1))
  }

  // ----- The reference: prune below first, test emptiness after -----

  function BottomUp(t: Tree): Tree
    decreases t
  {
    if Recurses(t.kind) then t.(content := BottomUpAll(t.content))
    else if t.kind.MappingNode? then t.(content := BottomUpPairs(t.content))
    else t
  }

  function BottomUpAll(ts: seq<Tree>): seq<Tree>
    decreases ts
  {
    if ts == [] then [] else [BottomUp(ts[0])] + BottomUpAll(ts[1..])
  }

  function BottomUpPairs(ts: seq<Tree>): seq<Tree>
    decreases ts
  {
    if |ts| < 2 then []
    else if IsEmpty(BottomUp(ts[1])) then BottomUpPairs(ts[2..])
    else [ts[0], BottomUp(ts[1])] + BottomUpPairs(ts[2..])
  }

  function Height(t: Tree): nat
    decreases t
  {
    if Recurses(t.kind) || t.kind.MappingNode? then 1 + MaxHeight(t.content) else 0
  }

  function MaxHeight(ts: seq<Tree>): nat
    decreases ts
  {
    if ts == [] then 0
    else if Height(ts[0]) >= MaxHeight(ts[1..]) then Height(ts[0]) else MaxHeight(ts[1..])
  }

  // ----- Convergence -----

  lemma EmptyStaysEmpty(t: Tree)
    requires IsEmpty(t)
    ensures Prune(t) == t
  {
  }

  lemma {:induction false} EmptyOnceEmpty(t: Tree, n: nat)
    requires IsEmpty(Passes(t, n))
    ensures IsEmpty(Passes(t, n + 1))
  {
    EmptyStaysEmpty(Passes(t, n));
  }

  function PassesAll(ts: seq<Tree>, n: nat): seq<Tree> {
    if ts == [] then [] else [Passes(ts[0], n)] + PassesAll(ts[1..], n)
  }

  /** After n >= 1 passes a pair is left iff its value, pruned n - 1 times, is not empty. */
  function PassesPairs(ts: seq<Tree>, n: nat): seq<Tree>
    requires n > 0
  {
    if |ts| < 2 then []
    else if IsEmpty(Passes(ts[1], n - 1)) then PassesPairs(ts[2..], n)
    else [ts[0], Passes(ts[1], n)] + PassesPairs(ts[2..], n)
  }

  lemma {:induction false} PassAll(ts: seq<Tree>, n: nat)
    ensures PruneAll(PassesAll(ts, n)) == PassesAll(ts, n + 1)
  {
    if ts != [] {
      PassAll(ts[1..], n);
      assert PassesAll(ts, n)[1..] == PassesAll(ts[1..], n);
    }
  }

  lemma {:induction false} PassPairs(ts: seq<Tree>, n: nat)
    requires n > 0
    ensures PrunePairs(PassesPairs(ts, n)) == PassesPairs(ts, n + 1)
  {
    if |ts| >= 2 {
      PassPairs(ts[2..], n);
      if IsEmpty(Passes(ts[1], n - 1)) {
        EmptyOnceEmpty(ts[1], n - 1);
      } else {
        assert PassesPairs(ts, n)[2..] == PassesPairs(ts[2..], n);
      }
    }
  }

  lemma {:induction false} FirstPassPairs(ts: seq<Tree>)
    ensures PassesPairs(ts, 1) == PrunePairs(ts)
  {
    if |ts| >= 2 {
      FirstPassPairs(ts[2..]);
      assert Passes(ts[1], 1) == Prune(Passes(ts[1], 0));
    }
  }

  lemma {:induction false} NoPassAll(ts: seq<Tree>)
    ensures PassesAll(ts, 0) == ts
  {
    if ts != [] {
      NoPassAll(ts[1..]);
      assert ts == [ts[0]] + ts[1..];
    }
  }

  /** n passes over a node, told from n passes over its children. */
  lemma {:induction false} PassesOf(t: Tree, n: nat)
    ensures Recurses(t.kind) ==> Passes(t, n) == t.(content := PassesAll(t.content, n))
    ensures t.kind.MappingNode? && n > 0 ==> Passes(t, n) == t.(content := PassesPairs(t.content, n))
    ensures !Recurses(t.kind) && !t.kind.MappingNode? ==> Passes(t, n) == t
  {
    if n == 0 {
      NoPassAll(t.content);
    } else {
      PassesOf(t, n - 1);
      if Recurses(t.kind) {
        PassAll(t.content, n - 1);
      } else if t.kind.MappingNode? {
        if n == 1 {
          FirstPassPairs(t.content);
        } else {
          PassPairs(t.content, n - 1);
        }
      }
    }
  }

  /** As many passes as the tree is high reach the bottom-up result, and stay there. */
  lemma {:induction false} PassesConverge(t: Tree, n: nat)
    requires n >= Height(t)
    ensures Passes(t, n) == BottomUp(t)
    decreases t
  {
    PassesOf(t, n);
    if Recurses(t.kind) {
      PassesAllConverge(t.content, n);
    } else if t.kind.MappingNode? {
      PassesPairsConverge(t.content, n);
    }
  }

  lemma {:induction false} PassesAllConverge(ts: seq<Tree>, n: nat)
    requires n >= MaxHeight(ts)
    ensures PassesAll(ts, n) == BottomUpAll(ts)
    decreases ts
  {
    if ts != [] {
      PassesConverge(ts[0], n);
      PassesAllConverge(ts[1..], n);
    }
  }

  lemma {:induction false} PassesPairsConverge(ts: seq<Tree>, n: nat)
    requires n > MaxHeight(ts)
    ensures PassesPairs(ts, n) == BottomUpPairs(ts)
    decreases ts
  {
    if |ts| >= 2 {
      assert ts[1..][0] == ts[1] && ts[1..][1..] == ts[2..];
      assert MaxHeight(ts) >= MaxHeight(ts[1..]) >= MaxHeight(ts[2..]);
      PassesConverge(ts[1], n - 1);
      PassesConverge(ts[1], n);
      PassesPairsConverge(ts[2..], n);
    }
  }

  /** The bottom-up result is a fixpoint of the pass. */
  lemma BottomUpIsFixpoint(t: Tree)
    ensures Prune(BottomUp(t)) == BottomUp(t)
  {
    PassesConverge(t, Height(t));
    PassesConverge(t, Height(t) + 1);
  }

  // ----- Exactly when one pass is enough -----

  predicate AllValuesEmpty(ts: seq<Tree>) {
    |ts| < 2 || (IsEmpty(ts[1]) && AllValuesEmpty(ts[2..]))
  }

  /** A mapping whose values are all empty: the pass that meets it as a value empties it. */
  predicate Hollow(t: Tree) { t.kind.MappingNode? && AllValuesEmpty(t.content) }

  /** No value is a mapping that holds only empty values, unless it is empty itself. */
  predicate Settled(t: Tree)
    decreases t
  {
    if Recurses(t.kind) then SettledAll(t.content)
    else if t.kind.MappingNode? then SettledPairs(t.content)
    else true
  }

  predicate SettledAll(ts: seq<Tree>)
    decreases ts
  {
    ts == [] || (Settled(ts[0]) && SettledAll(ts[1..]))
  }

  predicate SettledPairs(ts: seq<Tree>)
    decreases ts
  {
    |ts| < 2 ||
    ((IsEmpty(ts[1]) || (Settled(ts[1]) && !Hollow(ts[1]))) && SettledPairs(ts[2..]))
  }

  lemma {:induction false} NothingKeptIff(ts: seq<Tree>)
    ensures PrunePairs(ts) == [] <==> AllValuesEmpty(ts)
  {
    if |ts| >= 2 { NothingKeptIff(ts[2..]); }
  }

  /** A kept value becomes empty exactly when it is a mapping of empty values. */
  lemma BecomesEmptyIff(t: Tree)
    requires !IsEmpty(t)
    ensures IsEmpty(Prune(t)) <==> Hollow(t)
  {
    NothingKeptIff(t.content);
  }

  lemma {:induction false} OnePassIsEnoughIff(t: Tree)
    ensures Prune(Prune(t)) == Prune(t) <==> Settled(t)
    decreases t
  {
    if Recurses(t.kind) {
      OnePassIsEnoughForAllIff(t.content);
    } else if t.kind.MappingNode? {
      OnePassIsEnoughForPairsIff(t.content);
    }
  }

  lemma {:induction false} OnePassIsEnoughForAllIff(ts: seq<Tree>)
    ensures PruneAll(PruneAll(ts)) == PruneAll(ts) <==> SettledAll(ts)
    decreases ts
  {
    if ts != [] {
      OnePassIsEnoughIff(ts[0]);
      OnePassIsEnoughForAllIff(ts[1..]);
      var once := PruneAll(ts);
      assert once[1..] == PruneAll(ts[1..]);
      assert PruneAll(once)[1..] == PruneAll(once[1..]);
    }
  }

  lemma {:induction false} OnePassIsEnoughForPairsIff(ts: seq<Tree>)
    ensures PrunePairs(PrunePairs(ts)) == PrunePairs(ts) <==> SettledPairs(ts)
    decreases ts
  {
    if |ts| >= 2 {
      OnePassIsEnoughForPairsIff(ts[2..]);
      if !IsEmpty(ts[1]) {
        OnePassIsEnoughIff(ts[1]);
        BecomesEmptyIff(ts[1]);
        var once := PrunePairs(ts);
        assert once[2..] == PrunePairs(ts[2..]);
        if IsEmpty(Prune(ts[1])) {
          assert |PrunePairs(once)| <= |once| - 2;
        } else {
          assert PrunePairs(once)[2..] == PrunePairs(once[2..]);
        }
      }
    }
  }

  /** { a: { b: "" } }: one pass leaves { a: {} }, the next one {}. */
  lemma OnePassCanLeaveWork()
    ensures exists t: Tree :: WellFormed(t) && Prune(Prune(t)) != Prune(t)
  {
    var a, b, empty := Tree(ScalarNode, "a", []), Tree(ScalarNode, "b", []), Tree(ScalarNode, "", []);
    var inner := Tree(MappingNode, "", [b, empty]);
    var outer := Tree(MappingNode, "", [a, inner]);
    assert IsEmpty([b, empty][1]) && [b, empty][2..] == [];
    assert !SettledPairs([a, inner]) by { assert [a, inner][1] == inner && Hollow(inner); }
    OnePassIsEnoughIff(outer);
    assert WellFormed(a) && WellFormed(b) && WellFormed(empty);
    assert WellFormed(inner) && WellFormed(outer);
    assert Prune(Prune(outer)) != Prune(outer);
  }

  // ----- Nothing that is not empty is lost -----

  datatype PathStep = Key(key: Tree) | Index(i: nat)
  datatype Leaf = Leaf(path: seq<PathStep>, node: Tree)

  function Under(step: PathStep, leaves: seq<Leaf>): seq<Leaf> {
    seq(|leaves|, i requires 0 <= i < |leaves| => Leaf([step] + leaves[i].path, leaves[i].node))
  }

  /** Every non-empty scalar (and every alias) with the keys and indices leading to it, in order. */
  function Leaves(t: Tree): seq<Leaf>
    decreases t
  {
    match t.kind
    case ScalarNode => if IsEmpty(t) then [] else [Leaf([], t)]
    case AliasNode => [Leaf([], t)]
    case MappingNode => PairLeaves(t.content)
    case _ => ItemLeaves(t.content, 0)
  }

  function ItemLeaves(ts: seq<Tree>, i: nat): seq<Leaf>
    decreases ts
  {
    if ts == [] then [] else Under(Index(i), Leaves(ts[0])) + ItemLeaves(ts[1..], i + 1)
  }

  function PairLeaves(ts: seq<Tree>): seq<Leaf>
    decreases ts
  {
    if |ts| < 2 then [] else Under(Key(ts[0]), Leaves(ts[1])) + PairLeaves(ts[2..])
  }

  /** Every scalar that is not spelt as nothing, 0, 0s or null is a leaf. */
  lemma ScalarLeaves(t: Tree)
    requires t.kind == ScalarNode
    ensures Leaves(t) == if t.value in ["", "0", "0s", "null"] then [] else [Leaf([], t)]
  {
  }

  lemma EmptyHasNoLeaves(t: Tree, step: PathStep)
    requires IsEmpty(t)
    ensures Leaves(t) == [] && Under(step, Leaves(t)) == []
  {
    if t.kind.SequenceNode? {
      assert ItemLeaves(t.content, 0) == [];
    } else if t.kind.MappingNode? {
      assert PairLeaves(t.content) == [];
    }
  }

  /** A pass keeps every such scalar: same keys, same indices, same value, same order, and adds none. */
  lemma {:induction false} PruneKeepsLeaves(t: Tree)
    ensures Leaves(Prune(t)) == Leaves(t)
    decreases t
  {
    if Recurses(t.kind) {
      PruneKeepsItemLeaves(t.content, 0);
    } else if t.kind.MappingNode? {
      PruneKeepsPairLeaves(t.content);
    }
  }

  lemma {:induction false} PruneKeepsItemLeaves(ts: seq<Tree>, i: nat)
    ensures ItemLeaves(PruneAll(ts), i) == ItemLeaves(ts, i)
    decreases ts
  {
    if ts != [] {
      PruneKeepsLeaves(ts[0]);
      PruneKeepsItemLeaves(ts[1..], i + 1);
      assert PruneAll(ts)[1..] == PruneAll(ts[1..]);
    }
  }

  lemma {:induction false} PruneKeepsPairLeaves(ts: seq<Tree>)
    ensures PairLeaves(PrunePairs(ts)) == PairLeaves(ts)
    decreases ts
  {
    if |ts| >= 2 {
      PruneKeepsPairLeaves(ts[2..]);
      if IsEmpty(ts[1]) {
        EmptyHasNoLeaves(ts[1], Key(ts[0]));
      } else {
        PruneKeepsLeaves(ts[1]);
        assert PrunePairs(ts)[2..] == PrunePairs(ts[2..]);
      }
    }
  }

  /** Any number of passes. */
  lemma {:induction false} PassesKeepLeaves(t: Tree, n: nat)
    ensures Leaves(Passes(t, n)) == Leaves(t)
  {
    if n > 0 {
      PassesKeepLeaves(t, n - 1);
      PruneKeepsLeaves(Passes(t, n - 1));
    }
  }

  lemma {:induction false} PruneKeepsPairs(t: Tree)
    requires WellFormed(t)
    ensures WellFormed(Prune(t))
    decreases t
  {
    if Recurses(t.kind) {
      forall c | c in Prune(t).content ensures WellFormed(c) {
        PruneAllKeepsPairs(t.content, c);
      }
    } else if t.kind.MappingNode? {
      forall c | c in Prune(t).content ensures WellFormed(c) {
        PrunePairsKeepsPairs(t.content, c);
      }
    }
  }

  lemma {:induction false} PruneAllKeepsPairs(ts: seq<Tree>, c: Tree)
    requires (forall t <- ts :: WellFormed(t)) && c in PruneAll(ts)
    ensures WellFormed(c)
    decreases ts
  {
    PruneKeepsPairs(ts[0]);
    if c != Prune(ts[0]) { PruneAllKeepsPairs(ts[1..], c); }
  }

  lemma {:induction false} PrunePairsKeepsPairs(ts: seq<Tree>, c: Tree)
    requires (forall t <- ts :: WellFormed(t)) && c in PrunePairs(ts)
    ensures WellFormed(c)
    decreases ts
  {
    PruneKeepsPairs(ts[1]);
    if c in PrunePairs(ts[2..]) { PrunePairsKeepsPairs(ts[2..], c); }
  }
}
