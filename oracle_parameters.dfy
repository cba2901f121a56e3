/**
 * The request-body parameters the oracle lists in its report: each leaf parameter of the
 * body tree, with the dotted path of names leading to it. Structured (object or array)
 * parameters contribute only through their children.
 */
module OracleParameters {
  import opened Wrappers
  import opened OracleCompare
  import opened OracleProperties

  /** A parameter of the request body: a leaf with its formatted value and type, or a structured one. */
  datatype Param =
    | LeafParam(name: string, value: string, typeName: Option<string>)
    | StructuredParam(name: string, children: seq<Param>)

  /** One entry of the listing: the path, name, formatted value and type ("unknown" without one). */
  datatype ParamEntry = ParamEntry(path: string, name: string, value: string, typeName: string)

  function EntryOf(leaf: Param, path: string): ParamEntry
    requires leaf.LeafParam?
  {
    ParamEntry(path, leaf.name, leaf.value, if leaf.typeName.Some? then leaf.typeName.value else "unknown")
  }

  /** The entries extractParametersRecursive appends for a parameter below the given parent path. */
  function ParamEntries(param: Param, parentPath: string): seq<ParamEntry>
    decreases param, 1, 0
  {
    var path := DisplayPath(parentPath, param.name);
    match param
    case LeafParam(_, _, _) => [EntryOf(param, path)]
    case StructuredParam(_, children) => ChildEntries(param, path, 0)
  }

  /** The entries of the children of a structured parameter from index i on, below its path. */
  function ChildEntries(parent: Param, path: string, i: nat): seq<ParamEntry>
    requires parent.StructuredParam?
    decreases parent, 0, |parent.children| - i
  {
    if i >= |parent.children| then []
    else ParamEntries(parent.children[i], path) + ChildEntries(parent, path, i + 1)
  }

  // Proof helper: associativity of entry-list concatenation.
  lemma EntriesAssociative(a: seq<ParamEntry>, b: seq<ParamEntry>, c: seq<ParamEntry>)
    ensures (a + b) + c == a + (b + c)
  {
  }

  /** extractParametersRecursive: appends the entries of the parameter's leaves to the list it is handed. */
  method ExtractParametersRecursive(param: Param, parentPath: string, result: seq<ParamEntry>)
    returns (out: seq<ParamEntry>)
    ensures out == result + ParamEntries(param, parentPath)
    decreases param, 1
  {
    var currentPath := DisplayPath(parentPath, param.name);
    match param {
      case StructuredParam(_, _) =>
        out := ExtractChildren(param, currentPath, result);
      case LeafParam(_, _, _) =>
        out := result + [EntryOf(param, currentPath)];
    }
  }

  /** The loop of extractParametersRecursive over the children of a structured parameter. */
  method ExtractChildren(parent: Param, path: string, result: seq<ParamEntry>) returns (out: seq<ParamEntry>)
    requires parent.StructuredParam?
    ensures out == result + ChildEntries(parent, path, 0)
    decreases parent, 0
  {
    out := result;
    var i := 0;
    while i < |parent.children|
      invariant out + ChildEntries(parent, path, i) == result + ChildEntries(parent, path, 0)
    {
      ghost var before := out;
      out := ExtractParametersRecursive(parent.children[i], path, out);
      EntriesAssociative(before, ParamEntries(parent.children[i], path), ChildEntries(parent, path, i + 1));
      i := i + 1;
    }
  }

  // ---------------------------------------------------------------------------------------
  // One entry per leaf, in order, below its parent's path

  /** The leaf parameters of a tree, left to right. */
  function Leaves(param: Param): seq<Param>
    decreases param, 1, 0
  {
    match param
    case LeafParam(_, _, _) => [param]
    case StructuredParam(_, _) => ChildLeaves(param, 0)
  }

  function ChildLeaves(parent: Param, i: nat): seq<Param>
    requires parent.StructuredParam?
    decreases parent, 0, |parent.children| - i
  {
    if i >= |parent.children| then [] else Leaves(parent.children[i]) + ChildLeaves(parent, i + 1)
  }

  /**
   * For each leaf of a tree, left to right, the names on the way down to it: the tree's own
   * name first and the leaf's name last.
   */
  function LeafChains(param: Param): seq<seq<string>>
    decreases param, 1, 0
  {
    match param
    case LeafParam(_, _, _) => [[param.name]]
    case StructuredParam(_, _) => Prefixed(param.name, ChildChains(param, 0))
  }

  function ChildChains(parent: Param, i: nat): seq<seq<string>>
    requires parent.StructuredParam?
    decreases parent, 0, |parent.children| - i
  {
    if i >= |parent.children| then [] else LeafChains(parent.children[i]) + ChildChains(parent, i + 1)
  }

  /** Every chain with the name put in front. */
  function Prefixed(name: string, chains: seq<seq<string>>): (r: seq<seq<string>>)
    ensures |r| == |chains| && forall k :: 0 <= k < |r| ==> r[k] == [name] + chains[k]
  {
    seq(|chains|, k requires 0 <= k < |chains| => [name] + chains[k])
  }

  /** The path reached from a parent path by descending through the names, one level per name. */
  function PathOf(parentPath: string, chain: seq<string>): string
    decreases |chain|
  {
    if chain == [] then parentPath else PathOf(DisplayPath(parentPath, chain[0]), chain[1..])
  }

  /** The names joined by ".". */
  function Dotted(names: seq<string>): string
    requires |names| > 0
    decreases |names|
  {
    if |names| == 1 then names[0] else names[0] + "." + Dotted(names[1..])
  }

  /** Entry k is reached from the parent path through chain k. */
  predicate EntryPaths(es: seq<ParamEntry>, chains: seq<seq<string>>, parentPath: string)
  {
    |es| == |chains| && forall k :: 0 <= k < |es| ==> es[k].path == PathOf(parentPath, chains[k])
  }

  /** Chain k runs from the given root name down to the name of leaf k. */
  predicate ChainsOfLeaves(chains: seq<seq<string>>, leaves: seq<Param>, root: string)
  {
    |chains| == |leaves| &&
    forall k :: 0 <= k < |chains| ==>
      |chains[k]| > 0 && chains[k][0] == root && chains[k][|chains[k]| - 1] == leaves[k].name
  }

  /** Chains from leaves of subtrees end in those leaves' names, in order. */
  predicate ChainsEndInLeaves(chains: seq<seq<string>>, leaves: seq<Param>)
  {
    |chains| == |leaves| &&
    forall k :: 0 <= k < |chains| ==> |chains[k]| > 0 && chains[k][|chains[k]| - 1] == leaves[k].name
  }

  /** The chains of a tree start at its name and end at its leaves' names, one per leaf. */
  lemma {:induction false} LeafChainsOfLeaves(param: Param)
    ensures ChainsOfLeaves(LeafChains(param), Leaves(param), param.name)
    decreases param, 1, 0
  {
    match param {
      case LeafParam(_, _, _) =>
      case StructuredParam(_, _) =>
        ChildChainsEndInLeaves(param, 0);
        var cs := ChildChains(param, 0);
        forall k | 0 <= k < |cs|
          ensures ([param.name] + cs[k])[|[param.name] + cs[k]| - 1] == cs[k][|cs[k]| - 1]
        {
        }
    }
  }

  lemma {:induction false} ChildChainsEndInLeaves(parent: Param, i: nat)
    requires parent.StructuredParam?
    ensures ChainsEndInLeaves(ChildChains(parent, i), ChildLeaves(parent, i))
    decreases parent, 0, |parent.children| - i
  {
    if i < |parent.children| {
      var c1, l1 := LeafChains(parent.children[i]), Leaves(parent.children[i]);
      var c2, l2 := ChildChains(parent, i + 1), ChildLeaves(parent, i + 1);
      LeafChainsOfLeaves(parent.children[i]);
      ChildChainsEndInLeaves(parent, i + 1);
      forall k | 0 <= k < |c1 + c2|
        ensures (c1 + c2)[k] == (if k < |c1| then c1[k] else c2[k - |c1|])
        ensures (l1 + l2)[k] == (if k < |l1| then l1[k] else l2[k - |l1|])
      {
      }
    }
  }

  lemma EntryPathsConcat(e1: seq<ParamEntry>, c1: seq<seq<string>>, e2: seq<ParamEntry>, c2: seq<seq<string>>,
                         parentPath: string)
    requires EntryPaths(e1, c1, parentPath) && EntryPaths(e2, c2, parentPath)
    ensures EntryPaths(e1 + e2, c1 + c2, parentPath)
  {
    forall k | 0 <= k < |e1 + e2|
      ensures (e1 + e2)[k] == (if k < |e1| then e1[k] else e2[k - |e1|])
      ensures (c1 + c2)[k] == (if k < |c1| then c1[k] else c2[k - |c1|])
    {
    }
  }

  /** Paths reached below a child's path are reached from the parent path through the child's name. */
  lemma EntryPathsLift(es: seq<ParamEntry>, chains: seq<seq<string>>, parentPath: string, name: string)
    requires EntryPaths(es, chains, DisplayPath(parentPath, name))
    ensures EntryPaths(es, Prefixed(name, chains), parentPath)
  {
    forall k | 0 <= k < |es|
      ensures es[k].path == PathOf(parentPath, [name] + chains[k])
    {
      assert ([name] + chains[k])[1..] == chains[k];
    }
  }

  /**
   * Descending through non-empty names from a parent path gives the parent path, a "." when
   * it is non-empty, and the names joined by ".".
   */
  lemma {:induction false} PathOfDotted(parentPath: string, chain: seq<string>)
    requires |chain| > 0 && forall i :: 0 <= i < |chain| ==> chain[i] != ""
    ensures PathOf(parentPath, chain) == Lead(parentPath) + Dotted(chain)
    decreases |chain|
  {
    var d := DisplayPath(parentPath, chain[0]);
    assert d == Lead(parentPath) + chain[0];
    if |chain| > 1 {
      var rest := chain[1..];
      assert forall i :: 0 <= i < |rest| ==> rest[i] == chain[i + 1];
      PathOfDotted(d, rest);
      assert d != "" && Lead(d) == d + ".";
      assert Lead(parentPath) + Dotted(chain) == Lead(parentPath) + (chain[0] + "." + Dotted(rest));
      assert Lead(d) + Dotted(rest) == Lead(parentPath) + (chain[0] + "." + Dotted(rest));
    }
  }

  /** Whether b ends with a. */
  predicate IsSuffix(a: string, b: string)
  {
    |a| <= |b| && b[|b| - |a|..] == a
  }

  /**
   * Entry k is that of leaf k: its name, value and type, and a path that starts below the
   * parent path and ends with the leaf's name.
   */
  predicate EntriesOfLeaves(es: seq<ParamEntry>, leaves: seq<Param>, lead: string)
  {
    |es| == |leaves| &&
    forall k :: 0 <= k < |es| ==>
      leaves[k].LeafParam? && es[k].name == leaves[k].name && es[k].value == leaves[k].value &&
      es[k].typeName == (if leaves[k].typeName.Some? then leaves[k].typeName.value else "unknown") &&
      IsPrefix(lead, es[k].path) && IsSuffix(leaves[k].name, es[k].path)
  }

  lemma EntriesOfLeavesConcat(e1: seq<ParamEntry>, l1: seq<Param>, e2: seq<ParamEntry>, l2: seq<Param>, lead: string)
    requires EntriesOfLeaves(e1, l1, lead) && EntriesOfLeaves(e2, l2, lead)
    ensures EntriesOfLeaves(e1 + e2, l1 + l2, lead)
  {
    forall k | 0 <= k < |e1 + e2|
      ensures (e1 + e2)[k] == (if k < |e1| then e1[k] else e2[k - |e1|])
      ensures (l1 + l2)[k] == (if k < |l1| then l1[k] else l2[k - |l1|])
    {
    }
  }

  lemma EntriesOfLeavesWeaken(es: seq<ParamEntry>, leaves: seq<Param>, longer: string, lead: string)
    requires EntriesOfLeaves(es, leaves, longer) && IsPrefix(lead, longer)
    ensures EntriesOfLeaves(es, leaves, lead)
  {
    forall k | 0 <= k < |es|
      ensures IsPrefix(lead, es[k].path)
    {
      PrefixTransitive(lead, longer, es[k].path);
    }
  }

  lemma DisplayPathEndsWithKey(parentPath: string, key: string)
    ensures IsSuffix(key, DisplayPath(parentPath, key))
  {
    if parentPath != "" {
      assert DisplayPath(parentPath, key) == (parentPath + ".") + key;
    }
  }

  /**
   * The listing of a parameter has exactly one entry per leaf, in order, carrying that leaf's
   * name, value and type; a structured parameter has no entry of its own. Entry k's path is
   * the one reached from the parent path through chain k, the names from the parameter down
   * to leaf k.
   */
  lemma {:induction false} ParamEntriesAreLeaves(param: Param, parentPath: string)
    ensures EntriesOfLeaves(ParamEntries(param, parentPath), Leaves(param), Lead(parentPath))
    ensures EntryPaths(ParamEntries(param, parentPath), LeafChains(param), parentPath)
    ensures ChainsOfLeaves(LeafChains(param), Leaves(param), param.name)
    decreases param, 1, 0
  {
    var path := DisplayPath(parentPath, param.name);
    DisplayPathLead(parentPath, param.name);
    LeafChainsOfLeaves(param);
    match param {
      case LeafParam(_, _, _) =>
        DisplayPathEndsWithKey(parentPath, param.name);
        assert PathOf(parentPath, [param.name]) == PathOf(path, []);
      case StructuredParam(_, _) =>
        ChildEntriesAreLeaves(param, path, 0);
        EntriesOfLeavesWeaken(ChildEntries(param, path, 0), ChildLeaves(param, 0), Lead(path), Lead(parentPath));
        EntryPathsLift(ChildEntries(param, path, 0), ChildChains(param, 0), parentPath, param.name);
    }
  }

  lemma {:induction false} ChildEntriesAreLeaves(parent: Param, path: string, i: nat)
    requires parent.StructuredParam?
    ensures EntriesOfLeaves(ChildEntries(parent, path, i), ChildLeaves(parent, i), Lead(path))
    ensures EntryPaths(ChildEntries(parent, path, i), ChildChains(parent, i), path)
    ensures ChainsEndInLeaves(ChildChains(parent, i), ChildLeaves(parent, i))
    decreases parent, 0, |parent.children| - i
  {
    ChildChainsEndInLeaves(parent, i);
    if i < |parent.children| {
      ParamEntriesAreLeaves(parent.children[i], path);
      ChildEntriesAreLeaves(parent, path, i + 1);
      EntriesOfLeavesConcat(ParamEntries(parent.children[i], path), Leaves(parent.children[i]),
                            ChildEntries(parent, path, i + 1), ChildLeaves(parent, i + 1), Lead(path));
      EntryPathsConcat(ParamEntries(parent.children[i], path), LeafChains(parent.children[i]),
                       ChildEntries(parent, path, i + 1), ChildChains(parent, i + 1), path);
    }
  }

  /**
   * The request body is listed from the empty path: when no name on the way down is empty,
   * each entry's path is the names from the body's root down to its leaf, joined by ".".
   */
  lemma BodyEntryPaths(body: Param, k: nat)
    requires k < |LeafChains(body)|
    requires forall i :: 0 <= i < |LeafChains(body)[k]| ==> LeafChains(body)[k][i] != ""
    ensures k < |ParamEntries(body, "")| && k < |Leaves(body)| && |LeafChains(body)[k]| > 0
    ensures ParamEntries(body, "")[k].path == Dotted(LeafChains(body)[k])
    ensures LeafChains(body)[k][0] == body.name && Leaves(body)[k].name == LeafChains(body)[k][|LeafChains(body)[k]| - 1]
  {
    ParamEntriesAreLeaves(body, "");
    PathOfDotted("", LeafChains(body)[k]);
  }
}
