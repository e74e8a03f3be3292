/** The pruner on yaml.Node objects, rewriting node.Content in place (cmd/cli/yaml_prune.go). */
module YamlNodes {
  import opened YamlPrune

  class YamlNode {
    var kind: Kind
    var value: string
    var content: seq<YamlNode>
    ghost var repr: set<object>

    /** The node and everything below it form a tree: no node is shared. */
    ghost predicate Valid()
      reads this, repr
      ensures Valid() ==> this in repr
      decreases repr
    {
      && this in repr
      && (forall c <- content :: c in repr && c.repr <= repr && this !in c.repr && c.Valid())
      && (forall i, j | 0 <= i < j < |content| :: content[i].repr !! content[j].repr)
    }

    ghost function Abs(): Tree
      requires Valid()
      reads this, repr
      decreases repr
    {
      Tree(kind, value,
          seq(|content|, i requires 0 <= i < |content| reads this, repr requires Valid() => content[i].Abs()))
    }

    predicate IsEmptyValue()
      reads this
    {
      match kind
      case ScalarNode => value == "" || value == "0" || value == "0s" || value == "null"
      case SequenceNode => |content| == 0
      case MappingNode => |content| == 0
      case _ => false
    }

    ghost predicate Unmoved(k: Kind, v: string, cs: seq<YamlNode>, r: set<object>)
      reads this
    {
      kind == k && value == v && content == cs && repr == r
    }

    /** Rewrites the tree below this node into its pruned form. */
    method PruneNode()
      requires Valid() && WellFormed(Abs())
      modifies repr
      ensures Valid() && repr == old(repr)
      ensures Abs() == Prune(old(Abs()))
      decreases repr, 2
    {
      if kind.DocumentNode? || kind.SequenceNode? {
        PruneItems();
      } else if kind.MappingNode? {
        PruneMapping();
      }
    }

    /** Pruning one child changes that child only. */
    method PruneChild(i: nat)
      requires Valid() && i < |content| && WellFormed(Abs().content[i])
      modifies repr
      ensures Valid() && Unmoved(old(kind), old(value), old(content), old(repr))
      ensures Abs().content == old(Abs().content)[i := Prune(old(Abs().content)[i])]
      decreases repr, 0
    {
      hide Prune, WellFormed;
      assert content[i] in content;
      content[i].PruneNode();
    }

    method PruneItems()
      requires Valid() && WellFormed(Abs()) && Recurses(kind)
      modifies repr
      ensures Valid() && repr == old(repr)
      ensures Abs() == Prune(old(Abs()))
      decreases repr, 1
    {
      hide *;
      ghost var t := Abs();
      ghost var ts := t.content;
      AbsShape();
      PruneOfItems(t);
      for i := 0 to |content|
        invariant Valid() && Unmoved(t.kind, t.value, old(content), old(repr))
        invariant Abs().content == PruneAll(ts)[..i] + ts[i..]
      {
        AbsShape();
        WellFormedPart(t, i);
        PruneAllAt(ts, i);
        PruneChild(i);
        SpliceStep(PruneAll(ts), ts, i);
      }
      AbsShape();
    }

    lemma AbsShape()
      requires Valid()
      ensures Abs().kind == kind && Abs().value == value && |Abs().content| == |content|
      ensures forall k, v, cs, r :: Unmoved(k, v, cs, r) <==> kind == k && value == v && content == cs && repr == r
    {
    }

    lemma ChildEmptiness(i: nat)
      requires Valid() && i < |content|
      ensures content[i].IsEmptyValue() <==> IsEmpty(Abs().content[i])
    {
      assert content[i] in content;
    }

    method PruneMapping()
      requires Valid() && WellFormed(Abs()) && kind.MappingNode?
      modifies repr
      ensures Valid() && repr == old(repr)
      ensures Abs() == Prune(old(Abs()))
      decreases repr, 1
    {
      hide *;
      ghost var t := Abs();
      ghost var ts := t.content;
      AbsShape();
      PruneOfMapping(t);
      SelectsNothing(ts);
      var filtered: seq<YamlNode> := [];
      ghost var kept: seq<nat>, out: seq<Tree> := [], [];
      PicksNothing(content);
      var i := 0;
      while i < |content|
        invariant 0 <= i <= |content| == |ts| && i % 2 == 0
        invariant Valid() && Unmoved(t.kind, t.value, old(content), old(repr))
        invariant PairsDone(ts, i, Abs().content, kept, out) && PicksFrom(old(content), filtered, kept)
      {
        AbsShape();
        var key, value := content[i], content[i + 1];
        ChildEmptiness(i + 1);
        ghost var before := Abs().content;
        PairRest(ts, i, before, kept, out);
        if !value.IsEmptyValue() {
          WellFormedPart(t, i + 1);
          PicksMore(content, filtered, kept, i);
          filtered := filtered + [key, value];
          PruneChild(i + 1);
          PairKept(ts, i, before, kept, out);
          kept, out := kept + [i, i + 1], out + [ts[i], Prune(ts[i + 1])];
        } else {
          PairDropped(ts, i, before, kept, out);
        }
        i := i + 2;
        AbsShape();
      }
      AbsShape();
      AllPairsDone(ts, Abs().content, kept, out);
      Keep(filtered, kept, out);
    }

    /** node.Content = filtered */
    method Keep(filtered: seq<YamlNode>, ghost kept: seq<nat>, ghost out: seq<Tree>)
      requires Valid() && PicksFrom(content, filtered, kept) && Selects(kept, |content|, Abs().content, out)
      modifies this
      ensures Valid() && repr == old(repr)
      ensures Abs() == Tree(old(kind), old(value), out)
    {
      content := filtered;
    }

  }

  /** The nodes of `filtered` are those at the kept positions. */
  ghost predicate PicksFrom(content: seq<YamlNode>, filtered: seq<YamlNode>, kept: seq<nat>) {
    && |filtered| == |kept|
    && forall j | 0 <= j < |kept| :: kept[j] < |content| && filtered[j] == content[kept[j]]
  }

  lemma PicksNothing(content: seq<YamlNode>)
    ensures PicksFrom(content, [], [])
  {
  }

  lemma PicksMore(content: seq<YamlNode>, filtered: seq<YamlNode>, kept: seq<nat>, i: nat)
    requires PicksFrom(content, filtered, kept) && i + 1 < |content|
    ensures PicksFrom(content, filtered + [content[i], content[i + 1]], kept + [i, i + 1])
  {
  }

  /** The trees at the kept positions, all below i and ascending, are `out`. */
  ghost predicate Selects(kept: seq<nat>, i: nat, ts: seq<Tree>, out: seq<Tree>) {
    && |kept| == |out|
    && (forall j | 0 <= j < |kept| :: kept[j] < i && kept[j] < |ts| && ts[kept[j]] == out[j])
    && (forall j, k | 0 <= j < k < |kept| :: kept[j] < kept[k])
  }

  /** The pairs below i are done: what is kept of them, then pruning the rest, is pruning them all. */
  ghost predicate PairsDone(ts: seq<Tree>, i: nat, now: seq<Tree>, kept: seq<nat>, out: seq<Tree>) {
    && i <= |ts| == |now| && now[i..] == ts[i..]
    && Selects(kept, i, now, out)
    && out + PrunePairs(ts[i..]) == PrunePairs(ts)
  }

  lemma WellFormedPart(t: Tree, i: nat)
    requires WellFormed(t) && i < |t.content|
    ensures WellFormed(t.content[i])
  {
  }

  lemma PruneOfItems(t: Tree)
    requires Recurses(t.kind)
    ensures Prune(t) == Tree(t.kind, t.value, PruneAll(t.content))
  {
  }

  lemma SpliceStep(ps: seq<Tree>, ts: seq<Tree>, i: nat)
    requires |ps| == |ts| && i < |ts|
    ensures (ps[..i] + ts[i..])[i := ps[i]] == ps[..i + 1] + ts[i + 1..]
    ensures (ps[..i] + ts[i..])[i] == ts[i]
  {
  }

  lemma PruneOfMapping(t: Tree)
    requires t.kind.MappingNode? && WellFormed(t)
    ensures Prune(t) == Tree(t.kind, t.value, PrunePairs(t.content)) && |t.content| % 2 == 0
  {
  }

  lemma SelectsNothing(ts: seq<Tree>)
    ensures PairsDone(ts, 0, ts, [], [])
  {
  }

  /** The next pair of the list is still as it was. */
  lemma PairRest(ts: seq<Tree>, i: nat, now: seq<Tree>, kept: seq<nat>, out: seq<Tree>)
    requires PairsDone(ts, i, now, kept, out) && i + 1 < |ts|
    ensures now[i + 1] == ts[i + 1]
    ensures PrunePairs(ts[i..]) == (if IsEmpty(ts[i + 1]) then [] else [ts[i], Prune(ts[i + 1])])
              + PrunePairs(ts[i + 2..])
  {
    assert now[i..][1] == ts[i..][1];
    assert ts[i..][2..] == ts[i + 2..];
  }

  lemma PairDropped(ts: seq<Tree>, i: nat, now: seq<Tree>, kept: seq<nat>, out: seq<Tree>)
    requires PairsDone(ts, i, now, kept, out) && i + 1 < |ts| && IsEmpty(ts[i + 1])
    ensures PairsDone(ts, i + 2, now, kept, out)
  {
    PairRest(ts, i, now, kept, out);
    assert now[i..][2..] == now[i + 2..] && ts[i..][2..] == ts[i + 2..];
  }

  lemma PairKept(ts: seq<Tree>, i: nat, now: seq<Tree>, kept: seq<nat>, out: seq<Tree>)
    requires PairsDone(ts, i, now, kept, out) && i + 1 < |ts| && !IsEmpty(ts[i + 1])
    ensures PairsDone(ts, i + 2, now[i + 1 := Prune(ts[i + 1])], kept + [i, i + 1], out + [ts[i], Prune(ts[i + 1])])
  {
    PairRest(ts, i, now, kept, out);
    hide Prune, PrunePairs, IsEmpty;
    var pruned := Prune(ts[i + 1]);
    var after := now[i + 1 := pruned];
    assert now[i..][0] == ts[i..][0];
    assert after[i + 2..] == now[i..][2..] == ts[i..][2..] == ts[i + 2..];
    assert out + [ts[i], pruned] + PrunePairs(ts[i + 2..]) == out + ([ts[i], pruned] + PrunePairs(ts[i + 2..]));
  }

  lemma AllPairsDone(ts: seq<Tree>, now: seq<Tree>, kept: seq<nat>, out: seq<Tree>)
    requires PairsDone(ts, |ts|, now, kept, out)
    ensures Selects(kept, |ts|, now, out) && out == PrunePairs(ts)
  {
    assert ts[|ts|..] == [];
    assert out + [] == out;
  }

  lemma {:induction false} PruneAllAt(ts: seq<Tree>, j: nat)
    requires j < |ts|
    ensures PruneAll(ts)[j] == Prune(ts[j])
    decreases ts
  {
    if j > 0 { PruneAllAt(ts[1..], j - 1); }
  }
}
