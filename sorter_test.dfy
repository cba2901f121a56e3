/**
 * The helpers and the sequence-shape checks of the sorter's test class: endpoint
 * normalisation, the base resource path, and the two properties every generated
 * sequence is checked for (it is non-empty, and no other operation follows a DELETE).
 */
module SorterTest {
  import opened Wrappers
  import opened DependencyGraph
  import opened GraphSorter

  // ---------------------------------------------------------------------------------------
  // normalizeEndpointForCrud: `replaceAll("\\{[^}]+\\}", "{}")`

  /** The index in s of its first '}', if any. */
  function FirstClose(s: string): (r: Option<nat>)
    ensures r.None? <==> '}' !in s
    ensures r.Some? ==> r.value < |s| && s[r.value] == '}' && '}' !in s[..r.value]
  {
    if |s| == 0 then None
    else if s[0] == '}' then Some(0)
    else match FirstClose(s[1..])
      case None => None
      case Some(j) => assert s[..j + 1] == [s[0]] + s[1..][..j]; Some(j + 1)
  }

  /** The pattern matches at the start of s: a '{', at least one character other than '}', then a '}'. */
  predicate MatchesAtStart(s: string)
  {
    |s| > 0 && s[0] == '{' && FirstClose(s[1..]).Some? && FirstClose(s[1..]).value >= 1
  }

  /** Scans left to right; a match is replaced by "{}" and the scan goes on after it. */
  function Normalize(s: string): (r: string)
    ensures |r| <= |s|
    decreases |s|
  {
    if |s| == 0 then ""
    else if MatchesAtStart(s) then "{}" + Normalize(s[FirstClose(s[1..]).value + 2..])
    else [s[0]] + Normalize(s[1..])
  }

  /** A string the pattern matches nowhere. */
  predicate Normal(s: string)
    decreases |s|
  {
    |s| == 0 || (!MatchesAtStart(s) && Normal(s[1..]))
  }

  /** Text without braces is left as it is. */
  lemma {:induction false} NormalizeText(s: string)
    requires '{' !in s
    ensures Normalize(s) == s
    decreases |s|
  {
    if |s| > 0 {
      NormalizeText(s[1..]);
    }
  }

  /** Text without an opening brace passes through, whatever follows it. */
  lemma {:induction false} NormalizeAfterText(a: string, b: string)
    requires '{' !in a
    ensures Normalize(a + b) == a + Normalize(b)
    decreases |a|
  {
    if |a| > 0 {
      assert (a + b)[0] == a[0] && a[0] in a;
      assert (a + b)[1..] == a[1..] + b;
      NormalizeAfterText(a[1..], b);
      assert Normalize(a + b) == [a[0]] + Normalize(a[1..] + b);
      assert a == [a[0]] + a[1..];
    } else {
      assert a + b == b;
    }
  }

  /** The first '}' after a text free of '}' is the one that follows it. */
  lemma {:induction false} FirstCloseAfter(p: string, rest: string)
    requires '}' !in p
    ensures FirstClose(p + "}" + rest) == Some(|p|)
    decreases |p|
  {
    if |p| > 0 {
      assert (p + "}" + rest)[0] == p[0] && p[0] in p;
      assert (p + "}" + rest)[1..] == p[1..] + "}" + rest;
      FirstCloseAfter(p[1..], rest);
    }
  }

  /** A parameter segment `{p}` (p not empty, free of '}') becomes `{}`. */
  lemma NormalizeParameter(p: string, rest: string)
    requires |p| > 0 && '}' !in p
    ensures Normalize("{" + p + "}" + rest) == "{}" + Normalize(rest)
  {
    var s := "{" + p + "}" + rest;
    assert s[1..] == p + "}" + rest;
    FirstCloseAfter(p, rest);
    assert s[|p| + 2..] == rest;
  }

  /** The two-character string "{}" is not a match and stays. */
  lemma NormalizeEmptyBraces(rest: string)
    ensures Normalize("{}" + rest) == "{}" + Normalize(rest)
  {
    var s := "{}" + rest;
    assert s[1..] == "}" + rest;
    assert s[1..][1..] == rest;
  }

  /**
   * One parameter segment between two texts without braces: only the segment changes, as in
   * the test class's example `/projects/{id}/badges` to `/projects/{}/badges`.
   */
  lemma NormalizeOneParameter(a: string, p: string, b: string)
    requires '{' !in a && '{' !in b && |p| > 0 && '}' !in p
    ensures Normalize(a + ("{" + p + "}" + b)) == a + ("{}" + b)
  {
    NormalizeAfterText(a, "{" + p + "}" + b);
    NormalizeParameter(p, b);
    NormalizeText(b);
  }

  /** Normalisation never introduces a '}' the input did not have. */
  lemma {:induction false} NormalizeNoClose(s: string)
    requires '}' !in s
    ensures '}' !in Normalize(s)
    decreases |s|
  {
    if |s| > 0 {
      assert s[1..] == s[1..];
      NormalizeNoClose(s[1..]);
    }
  }

  /** A string the pattern matches nowhere is its own normal form. */
  lemma {:induction false} NormalFixed(s: string)
    requires Normal(s)
    ensures Normalize(s) == s
    decreases |s|
  {
    if |s| > 0 {
      NormalFixed(s[1..]);
    }
  }

  /** The pattern matches nowhere in a normalised string. */
  lemma {:induction false} NormalizeIsNormal(s: string)
    ensures Normal(Normalize(s))
    decreases |s|
  {
    if |s| > 0 {
      var t := Normalize(s);
      if MatchesAtStart(s) {
        var x := Normalize(s[FirstClose(s[1..]).value + 2..]);
        NormalizeIsNormal(s[FirstClose(s[1..]).value + 2..]);
        assert t[1..] == "}" + x && t[1..][1..] == x;
        assert FirstClose(t[1..]) == Some(0);
      } else {
        var x := Normalize(s[1..]);
        NormalizeIsNormal(s[1..]);
        assert t[1..] == x;
        if s[0] == '{' {
          if FirstClose(s[1..]).None? {
            NormalizeNoClose(s[1..]);
          } else {
            assert s[1] == '}';
            assert s[1..][1..] == s[2..];
            assert x == "}" + Normalize(s[2..]);
            assert FirstClose(x) == Some(0);
          }
        }
      }
    }
  }

  /** normalizeEndpointForCrud is idempotent. */
  lemma NormalizeIdempotent(s: string)
    ensures Normalize(Normalize(s)) == Normalize(s)
  {
    NormalizeIsNormal(s);
    NormalFixed(Normalize(s));
  }

  // ---------------------------------------------------------------------------------------
  // extractBaseResourcePath

  /** `lastIndexOf(c)`: the last index of c in s, or -1. */
  function LastIndexOf(s: string, c: char): (r: int)
    ensures r == -1 <==> c !in s
    ensures r != -1 ==> 0 <= r < |s| && s[r] == c && c !in s[r + 1..]
  {
    if |s| == 0 then -1
    else if s[|s| - 1] == c then |s| - 1
    else
      var r := LastIndexOf(s[..|s| - 1], c);
      assert s == s[..|s| - 1] + [s[|s| - 1]];
      if r != -1 then assert s[r + 1..] == s[..|s| - 1][r + 1..] + [s[|s| - 1]]; r
      else r
  }

  /** The normalised endpoint without its last segment when that segment is "{}" and not the first. */
  function ExtractBaseResourcePath(endpoint: string): string
  {
    var normalized := Normalize(endpoint);
    var lastSlash := LastIndexOf(normalized, '/');
    if lastSlash > 0 && normalized[lastSlash + 1..] == "{}" then normalized[..lastSlash]
    else normalized
  }

  /** In a string whose only c after index i is s[i], lastIndexOf(c) is i. */
  lemma LastIndexOfAt(s: string, c: char, i: nat)
    requires i < |s| && s[i] == c && c !in s[i + 1..]
    ensures LastIndexOf(s, c) == i
  {
    var r := LastIndexOf(s, c);
    forall j | i < j < |s|
      ensures s[j] != c
    {
      assert s[j] == s[i + 1..][j - i - 1];
    }
    forall j | r < j < |s|
      ensures s[j] != c
    {
      assert s[j] == s[r + 1..][j - r - 1];
    }
  }

  /** The normalised endpoint ends in a "{}" segment whose slash is past its first character. */
  predicate EndsWithParameter(n: string)
  {
    |n| >= 4 && n[|n| - 3..] == "/{}"
  }

  /** The test extractBaseResourcePath makes on its last slash holds only for such an endpoint. */
  lemma LastSegmentTest(n: string)
    ensures var l := LastIndexOf(n, '/'); l > 0 && n[l + 1..] == "{}" ==> EndsWithParameter(n)
  {
    var l := LastIndexOf(n, '/');
    if l > 0 && n[l + 1..] == "{}" {
      assert n[|n| - 3..] == [n[l]] + n[l + 1..];
    }
  }

  /** The base path drops the last segment of the normalised endpoint exactly when it is such a "{}". */
  lemma BasePathMeaning(endpoint: string)
    ensures var n := Normalize(endpoint);
      ExtractBaseResourcePath(endpoint) == if EndsWithParameter(n) then n[..|n| - 3] else n
  {
    var n := Normalize(endpoint);
    LastSegmentTest(n);
    if EndsWithParameter(n) {
      assert n[|n| - 2..] == "{}";
      assert n[|n| - 2..] == n[|n| - 3..][1..];
      LastIndexOfAt(n, '/', |n| - 3);
    }
  }

  /** Two parameter segments, each after a text without braces, both become "{}". */
  lemma NormalizeTwoParameters(a: string, p: string, b: string, p': string)
    requires '{' !in a && '{' !in b && |p| > 0 && '}' !in p && |p'| > 0 && '}' !in p'
    ensures Normalize(a + ("{" + p + "}" + (b + ("{" + p' + "}")))) == a + ("{}" + (b + "{}"))
  {
    var last := "{" + p' + "}";
    NormalizeAfterText(a, "{" + p + "}" + (b + last));
    NormalizeParameter(p, b + last);
    NormalizeAfterText(b, last);
    assert last + "" == last;
    NormalizeParameter(p', "");
  }

  /** A normalised endpoint `x/{}` with x not empty has base path x. */
  lemma BasePathDropsParameter(endpoint: string, x: string)
    requires |x| > 0 && Normalize(endpoint) == x + ("/" + "{}")
    ensures ExtractBaseResourcePath(endpoint) == x
  {
    var n := Normalize(endpoint);
    assert n[|n| - 3..] == "/{}" && n[..|n| - 3] == x;
    BasePathMeaning(endpoint);
  }

  /**
   * An endpoint `a{p}b/{p'}` has base path `a{}b`, as in the test class's example
   * `/projects/{id}/badges/{badge_id}` to `/projects/{}/badges`.
   */
  lemma BasePathTwoSegments(a: string, p: string, b: string, p': string)
    requires '{' !in a && '{' !in b && |a| > 0 && |p| > 0 && '}' !in p && |p'| > 0 && '}' !in p'
    ensures ExtractBaseResourcePath(a + ("{" + p + "}" + (b + ("/" + ("{" + p' + "}"))))) == a + ("{}" + b)
  {
    var e := a + ("{" + p + "}" + (b + ("/" + ("{" + p' + "}"))));
    assert '{' !in b + "/";
    NormalizeTwoParameters(a, p, b + "/", p');
    assert e == a + ("{" + p + "}" + ((b + "/") + ("{" + p' + "}")));
    var x := a + ("{}" + b);
    assert a + ("{}" + ((b + "/") + "{}")) == x + ("/" + "{}");
    BasePathDropsParameter(e, x);
  }

  // ---------------------------------------------------------------------------------------
  // The sequence-shape tests

  /** The operations a queue of node ids stands for. */
  function QueueOperations(g: Graph, q: seq<nat>): (ops: seq<Operation>)
    requires InGraph(g, q)
    ensures |ops| == |q| && forall i :: 0 <= i < |q| ==> ops[i] == g.ops[q[i]]
  {
    if |q| == 0 then [] else [g.ops[q[0]]] + QueueOperations(g, q[1..])
  }

  /** No operation other than a DELETE comes after a DELETE. */
  predicate DeletesAtEnd(sequence: seq<Operation>)
  {
    forall i, j :: 0 <= i < j < |sequence| && sequence[i].httpMethod == DELETE ==> sequence[j].httpMethod == DELETE
  }

  /** The loop of testDeleteOperationsAtEnd: it fails at the first non-DELETE met after a DELETE. */
  method CheckDeletesAtEnd(sequence: seq<Operation>) returns (ok: bool)
    ensures ok <==> DeletesAtEnd(sequence)
  {
    var deleteFound := false;
    var n := 0;
    while n < |sequence|
      invariant n <= |sequence|
      invariant deleteFound <==> exists i :: 0 <= i < n && sequence[i].httpMethod == DELETE
      invariant forall i, j :: 0 <= i < j < n && sequence[i].httpMethod == DELETE ==> sequence[j].httpMethod == DELETE
    {
      if sequence[n].httpMethod == DELETE {
        deleteFound := true;
      } else if deleteFound {
        return false;
      }
      n := n + 1;
    }
    return true;
  }

  /** A queue whose node ids keep the DELETEs last gives an operation list that keeps them last. */
  lemma DeletesLastOperations(g: Graph, q: seq<nat>)
    requires InGraph(g, q)
    ensures DeletesAtEnd(QueueOperations(g, q)) <==> DeletesLast(g, q)
  {
    var ops := QueueOperations(g, q);
    forall i | 0 <= i < |q|
      ensures ops[i].httpMethod == DELETE <==> IsMethod(g, q[i], DELETE)
    {
    }
  }

  /** Every sequence a sorter generates is non-empty and ends with its DELETEs. */
  lemma GeneratedShape(s: DiffBasedGraphSorter, m: map<nat, nat>, pool: seq<nat>, q: seq<nat>, depth: int,
                       strategy: DeleteStrategy, chainLen: nat, deleteCount: nat)
    requires s.Generated(m, pool, q, depth, strategy, chainLen, deleteCount)
    ensures InGraph(s.graph, q) && |q| > 0 && DeletesAtEnd(QueueOperations(s.graph, q))
  {
    DeletesLastOperations(s.graph, q);
  }

  /**
   * One run of testSequenceGenerationNotEmpty and testDeleteOperationsAtEnd on a sorter built
   * from g and the stream: the constructor fails only for a graph without POST operations,
   * and otherwise both assertions hold.
   */
  method SequenceTests(g: WfGraph, stream: nat -> nat) returns (o: Outcome<string>, notEmpty: bool, deletesAtEnd: bool)
    ensures o.Fail? <==> |PostIds(g)| == 0
    ensures o.Pass? ==> notEmpty && deletesAtEnd
  {
    var s, built, chainLen, deleteCount := NewSorter(g, stream);
    o := built;
    notEmpty, deletesAtEnd := false, false;
    if o.Pass? {
      GeneratedShape(s, s.postToDeleteMap, s.deleteNodes, s.queue, s.currentMaxDepth, s.currentDeleteStrategy.value, chainLen, deleteCount);
      var sequence := QueueOperations(g, s.queue);
      notEmpty := |sequence| > 0;
      deletesAtEnd := CheckDeletesAtEnd(sequence);
    }
  }
}
