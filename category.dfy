/**
 * The category entity and its parent chain: `isRoot`, `hasChildren`,
 * `getLevel` and `getFullPath`, over the categories table held as a map from
 * id to row.
 */
module CategoryModel {
  import opened Wrappers

  /** A row of `categories`; `parentId` is the `parent_id` foreign key. */
  datatype Category = Category(
    code: string,
    name: string,
    description: Option<string>,
    active: bool,
    sortOrder: int,
    parentId: Option<int>)

  type Categories = map<int, Category>

  predicate IsRoot(c: Category)
  {
    c.parentId.None?
  }

  /** The ids of the `children` association: the rows whose parent is `id`. */
  function ChildIds(cats: Categories, id: int): set<int>
  {
    set k | k in cats && cats[k].parentId == Some(id)
  }

  predicate HasChildren(cats: Categories, id: int)
  {
    ChildIds(cats, id) != {}
  }

  /** Every `parent_id` names an existing row (the foreign key). */
  predicate ParentsExist(cats: Categories)
  {
    forall k | k in cats :: cats[k].parentId.None? || cats[k].parentId.value in cats
  }

  /**
   * `chain` starts at some category, follows `parent` one step at a time,
   * ends at a root and never repeats an id.
   */
  predicate IsChain(cats: Categories, chain: seq<int>)
  {
    && |chain| >= 1
    && (forall i | 0 <= i < |chain| :: chain[i] in cats)
    && (forall i | 0 <= i < |chain| - 1 :: cats[chain[i]].parentId == Some(chain[i + 1]))
    && cats[chain[|chain| - 1]].parentId.None?
    && (forall i, j | 0 <= i < j < |chain| :: chain[i] != chain[j])
  }

  /** The parent chain of `id` that avoids `seen`, or None when it loops back. */
  function AncestorsAvoiding(cats: Categories, id: int, seen: set<int>): Option<seq<int>>
    decreases cats.Keys - seen
  {
    if id !in cats || id in seen then None
    else
      match cats[id].parentId
      case None => Some([id])
      case Some(p) =>
        match AncestorsAvoiding(cats, p, seen + {id})
        case None => None
        case Some(rest) => Some([id] + rest)
  }

  /**
   * `id`, its parent, its grand-parent, ... up to a root. None when the chain
   * never reaches a root: there Java's recursive `getLevel` and `getFullPath`
   * overflow the stack.
   */
  function Ancestors(cats: Categories, id: int): Option<seq<int>>
  {
    AncestorsAvoiding(cats, id, {})
  }

  /** `getLevel`: 0 for a root, one more than the parent's otherwise. */
  function Level(cats: Categories, id: int): Option<nat>
  {
    match Ancestors(cats, id)
    case None => None
    case Some(chain) => Some(|chain| - 1)
  }

  /** The names along a chain, outermost first, joined with " > ". */
  function PathText(cats: Categories, chain: seq<int>): string
    requires |chain| >= 1 && forall i | 0 <= i < |chain| :: chain[i] in cats
  {
    if |chain| == 1 then cats[chain[0]].name
    else PathText(cats, chain[1..]) + " > " + cats[chain[0]].name
  }

  /** `getFullPath`: the name for a root, the parent's path + " > " + name otherwise. */
  function FullPath(cats: Categories, id: int): Option<string>
  {
    match Ancestors(cats, id)
    case None => None
    case Some(chain) =>
      AncestorsSound(cats, id, {});
      Some(PathText(cats, chain))
  }

  /** Every category of the table has a finite parent chain. */
  predicate Acyclic(cats: Categories)
  {
    forall id | id in cats :: Ancestors(cats, id).Some?
  }

  lemma {:induction false} AncestorsSound(cats: Categories, id: int, seen: set<int>)
    ensures AncestorsAvoiding(cats, id, seen).Some? ==>
      var chain := AncestorsAvoiding(cats, id, seen).value;
      IsChain(cats, chain) && chain[0] == id && forall i | 0 <= i < |chain| :: chain[i] !in seen
    decreases cats.Keys - seen
  {
    if id in cats && id !in seen && cats[id].parentId.Some? {
      AncestorsSound(cats, cats[id].parentId.value, seen + {id});
    }
  }

  lemma {:induction false} AncestorsComplete(cats: Categories, chain: seq<int>, seen: set<int>)
    requires IsChain(cats, chain)
    requires forall i | 0 <= i < |chain| :: chain[i] !in seen
    ensures AncestorsAvoiding(cats, chain[0], seen) == Some(chain)
    decreases |chain|
  {
    if |chain| > 1 {
      var rest := chain[1..];
      assert IsChain(cats, rest) by {
        forall i, j | 0 <= i < j < |rest| ensures rest[i] != rest[j] {
          assert rest[i] == chain[i + 1] && rest[j] == chain[j + 1];
        }
      }
      forall i | 0 <= i < |rest| ensures rest[i] !in seen + {chain[0]} {
        assert rest[i] == chain[i + 1];
      }
      AncestorsComplete(cats, rest, seen + {chain[0]});
      assert chain == [chain[0]] + rest;
    } else {
      assert chain == [chain[0]];
    }
  }

  /** Ancestors finds a chain exactly when one exists, and then it is that chain. */
  lemma AncestorsCharacterised(cats: Categories, id: int, chain: seq<int>)
    ensures Ancestors(cats, id) == Some(chain) <==> IsChain(cats, chain) && chain[0] == id
  {
    AncestorsSound(cats, id, {});
    if IsChain(cats, chain) && chain[0] == id {
      AncestorsComplete(cats, chain, {});
    }
  }

  /** A root is its own chain: level 0, path = its name. */
  lemma RootLevelAndPath(cats: Categories, id: int)
    requires id in cats && IsRoot(cats[id])
    ensures Ancestors(cats, id) == Some([id])
    ensures Level(cats, id) == Some(0)
    ensures FullPath(cats, id) == Some(cats[id].name)
  {
  }

  /**
   * Below a root, level and path follow the parent's, as the Java recursion
   * says: `parent.getLevel() + 1` and `parent.getFullPath() + " > " + name`.
   */
  lemma ChildLevelAndPath(cats: Categories, id: int)
    requires id in cats && cats[id].parentId.Some?
    requires Ancestors(cats, id).Some?
    ensures var p := cats[id].parentId.value;
      && Ancestors(cats, p).Some?
      && Level(cats, id) == Some(Level(cats, p).value + 1)
      && FullPath(cats, id) == Some(FullPath(cats, p).value + " > " + cats[id].name)
  {
    var chain := Ancestors(cats, id).value;
    AncestorsSound(cats, id, {});
    var rest := chain[1..];
    assert IsChain(cats, rest) by {
      forall i, j | 0 <= i < j < |rest| ensures rest[i] != rest[j] {
        assert rest[i] == chain[i + 1] && rest[j] == chain[j + 1];
      }
    }
    AncestorsCharacterised(cats, cats[id].parentId.value, rest);
  }

  /**
   * The chain of a non-root exists exactly when its parent's chain exists
   * and does not pass through it; then it is the parent's chain with the
   * category in front.
   */
  lemma ParentStep(cats: Categories, id: int)
    requires id in cats && cats[id].parentId.Some?
    ensures var p := cats[id].parentId.value;
      Ancestors(cats, id).Some? <==> Ancestors(cats, p).Some? && id !in Ancestors(cats, p).value
    ensures var p := cats[id].parentId.value;
      Ancestors(cats, id).Some? ==> Ancestors(cats, id).value == [id] + Ancestors(cats, p).value
  {
    var p := cats[id].parentId.value;
    if Ancestors(cats, id).Some? {
      ChildLevelAndPath(cats, id);
      var chain := Ancestors(cats, id).value;
      AncestorsSound(cats, id, {});
      AncestorsCharacterised(cats, p, chain[1..]);
      assert chain == [id] + chain[1..];
    } else if Ancestors(cats, p).Some? && id !in Ancestors(cats, p).value {
      var rest := Ancestors(cats, p).value;
      AncestorsSound(cats, p, {});
      var chain := [id] + rest;
      assert IsChain(cats, chain) by {
        forall i, j | 0 <= i < j < |chain| ensures chain[i] != chain[j] {
          if i > 0 {
            assert chain[i] == rest[i - 1] && chain[j] == rest[j - 1];
          } else {
            assert chain[j] == rest[j - 1];
          }
        }
      }
      AncestorsCharacterised(cats, id, chain);
    }
  }

  /** A chain valid in one table stays valid in another that keeps its rows' parents. */
  lemma ChainTransfers(cats: Categories, cats': Categories, chain: seq<int>)
    requires IsChain(cats, chain)
    requires forall i | 0 <= i < |chain| :: chain[i] in cats' && cats'[chain[i]].parentId == cats[chain[i]].parentId
    ensures IsChain(cats', chain)
  {
  }

  /** `create`: a new row under an existing parent (or at the root) keeps the table acyclic. */
  lemma AttachKeepsAcyclic(cats: Categories, id: int, c: Category)
    requires id !in cats
    requires c.parentId.None? || c.parentId.value in cats
    requires Acyclic(cats)
    ensures Acyclic(cats[id := c])
  {
    var cats' := cats[id := c];
    forall x | x in cats' ensures Ancestors(cats', x).Some? {
      if x == id {
        if c.parentId.Some? {
          var p := c.parentId.value;
          var rest := Ancestors(cats, p).value;
          AncestorsSound(cats, p, {});
          ChainTransfers(cats, cats', rest);
          AncestorsCharacterised(cats', p, rest);
          ParentStep(cats', id);
        }
      } else {
        var chain := Ancestors(cats, x).value;
        AncestorsSound(cats, x, {});
        ChainTransfers(cats, cats', chain);
        AncestorsCharacterised(cats', x, chain);
      }
    }
  }

  /** `delete`: removing a category without children keeps the table acyclic. */
  lemma DetachKeepsAcyclic(cats: Categories, id: int)
    requires !HasChildren(cats, id)
    requires Acyclic(cats)
    ensures Acyclic(cats - {id})
  {
    var cats' := cats - {id};
    forall x | x in cats' ensures Ancestors(cats', x).Some? {
      var chain := Ancestors(cats, x).value;
      AncestorsSound(cats, x, {});
      forall i | 0 < i < |chain| ensures chain[i] != id {
        var child := chain[i - 1];
        assert cats[child].parentId == Some(chain[i]);
        assert child !in ChildIds(cats, id);
      }
      ChainTransfers(cats, cats', chain);
      AncestorsCharacterised(cats', x, chain);
    }
  }

  /**
   * `update`: when only the parent of `id` changes and `id` itself still
   * reaches a root, every category still reaches a root.
   */
  lemma RepointKeepsAcyclic(cats: Categories, cats': Categories, id: int)
    requires cats'.Keys == cats.Keys
    requires forall k | k in cats && k != id :: cats'[k].parentId == cats[k].parentId
    requires Acyclic(cats)
    requires Ancestors(cats', id).Some?
    ensures Acyclic(cats')
  {
    forall x | x in cats' ensures Ancestors(cats', x).Some? {
      var chain := Ancestors(cats, x).value;
      AncestorsSound(cats, x, {});
      RepointAlongChain(cats, cats', id, chain);
    }
  }

  lemma {:induction false} RepointAlongChain(cats: Categories, cats': Categories, id: int, chain: seq<int>)
    requires cats'.Keys == cats.Keys
    requires forall k | k in cats && k != id :: cats'[k].parentId == cats[k].parentId
    requires Ancestors(cats', id).Some?
    requires IsChain(cats, chain)
    ensures Ancestors(cats', chain[0]).Some?
    decreases |chain|
  {
    var x := chain[0];
    if x != id && |chain| > 1 {
      var rest := chain[1..];
      assert IsChain(cats, rest) by {
        forall i, j | 0 <= i < j < |rest| ensures rest[i] != rest[j] {
          assert rest[i] == chain[i + 1] && rest[j] == chain[j + 1];
        }
      }
      RepointAlongChain(cats, cats', id, rest);
      var q := chain[1];
      var up := Ancestors(cats', q).value;
      AncestorsSound(cats', q, {});
      forall k | 0 <= k < |up| ensures up[k] != x {
        if k < |up| - 1 {
          assert cats'[up[k]].parentId == Some(up[k + 1]);
          assert up[k + 1] != up[0];
        }
      }
      ParentStep(cats', x);
    }
  }

  /**
   * `e` is a chain in `cats'` from `c[0]`, and the first `j` links of `c`
   * are parent links of `cats'`: then `e` follows `c` for `j` steps.
   */
  lemma {:induction false} ChainFollowsLinks(cats': Categories, e: seq<int>, c: seq<int>, j: int)
    requires IsChain(cats', e)
    requires 0 <= j < |c| && e[0] == c[0]
    requires forall i | 0 <= i < j :: c[i] in cats' && cats'[c[i]].parentId == Some(c[i + 1])
    ensures j < |e| && e[j] == c[j]
    decreases j
  {
    if j > 0 {
      ChainFollowsLinks(cats', e, c, j - 1);
      assert cats'[e[j - 1]].parentId == Some(c[j]);
    }
  }

  /**
   * Giving `id` the parent `p` (another existing category, every other row
   * unchanged) leaves `id` with a finite chain exactly when `id` is not on
   * the chain of `p`, i.e. when `p` is not `id` or one of its descendants.
   */
  lemma ReparentCycle(cats: Categories, cats': Categories, id: int, p: int)
    requires Acyclic(cats) && id in cats && p in cats && p != id
    requires cats'.Keys == cats.Keys
    requires forall k | k in cats && k != id :: cats'[k].parentId == cats[k].parentId
    requires cats'[id].parentId == Some(p)
    ensures Ancestors(cats', id).Some? <==> id !in Ancestors(cats, p).value
  {
    var c := Ancestors(cats, p).value;
    AncestorsSound(cats, p, {});
    ParentStep(cats', id);
    if id !in c {
      ChainTransfers(cats, cats', c);
      AncestorsCharacterised(cats', p, c);
    } else if Ancestors(cats', p).Some? {
      var e := Ancestors(cats', p).value;
      AncestorsSound(cats', p, {});
      var j :| 0 <= j < |c| && c[j] == id;
      forall i | 0 <= i < j ensures c[i] in cats' && cats'[c[i]].parentId == Some(c[i + 1]) {
        assert c[i] != c[j];
      }
      ChainFollowsLinks(cats', e, c, j);
    }
  }

  /** The ids along a chain. */
  function ChainSet(chain: seq<int>): set<int>
  {
    set i | 0 <= i < |chain| :: chain[i]
  }

  /** A child of the head of a chain sits one level below it, its path one segment longer. */
  lemma ChildOfChain(cats: Categories, chain: seq<int>, k: int)
    requires IsChain(cats, chain)
    requires k in cats && cats[k].parentId == Some(chain[0])
    ensures Level(cats, k) == Some(|chain|)
    ensures FullPath(cats, k) == Some(PathText(cats, chain) + " > " + cats[k].name)
  {
    ExtendChain(cats, chain, k);
    AncestorsCharacterised(cats, k, [k] + chain);
    assert ([k] + chain)[1..] == chain;
  }

  /** A child of the first category of a chain extends the chain by one, with a new id. */
  lemma ExtendChain(cats: Categories, chain: seq<int>, k: int)
    requires IsChain(cats, chain)
    requires k in cats && cats[k].parentId == Some(chain[0])
    ensures IsChain(cats, [k] + chain)
    ensures k !in ChainSet(chain)
    ensures ChainSet([k] + chain) == ChainSet(chain) + {k}
  {
    var c := [k] + chain;
    forall i | 0 <= i < |chain| ensures chain[i] != k {
      if i < |chain| - 1 {
        assert cats[chain[i]].parentId == Some(chain[i + 1]);
        assert chain[i + 1] != chain[0];
      }
    }
    forall i, j | 0 <= i < j < |c| ensures c[i] != c[j] {
      if i > 0 {
        assert c[i] == chain[i - 1] && c[j] == chain[j - 1];
      } else {
        assert c[j] == chain[j - 1];
      }
    }
    assert IsChain(cats, c) by {
      forall i | 0 <= i < |c| - 1 ensures cats[c[i]].parentId == Some(c[i + 1]) {
        if i > 0 {
          assert c[i] == chain[i - 1] && c[i + 1] == chain[i];
        }
      }
    }
    forall x | x in ChainSet(c) ensures x in ChainSet(chain) + {k} {
      var i :| 0 <= i < |c| && c[i] == x;
      if i > 0 {
        assert x == chain[i - 1];
      }
    }
    forall x | x in ChainSet(chain) + {k} ensures x in ChainSet(c) {
      if x != k {
        var i :| 0 <= i < |chain| && chain[i] == x;
        assert c[i + 1] == x;
      } else {
        assert c[0] == x;
      }
    }
  }
}
