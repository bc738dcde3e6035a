/**
  The leaf-level document diff (frontend/src/lib/diffUtils.ts).

  A document tree is flattened to its text leaves; a table of longest-common-subsequence
  lengths is filled; a walk back through the table emits one hunk per inserted or deleted leaf.
  A `char` stands for one UTF-16 code unit, so `|text|` is the script's `text.length`.
 */
module Diff {
  import opened Wrappers

  // ---------------------------------------------------------------- documents and leaves

  datatype Content = Absent | Present(children: seq<Node>)

  datatype Node = Node(kind: string, text: Option<string>, content: Content)

  datatype TextLeaf = TextLeaf(text: string, pos: nat) {
    function End(): nat { pos + |text| }
  }

  class OffsetRef {
    var v: nat

    constructor ()
      ensures v == 0
    {
      v := 0;
    }
  }

  predicate IsTextLeaf(node: Node) {
    node.kind == "text" && node.text.Some?
  }

  /** How far the running offset moves over a node. */
  function Width(node: Node): nat
    decreases node, 1
  {
    if IsTextLeaf(node) then |node.text.value|
    else match node.content
      case Present(children) => 2 + WidthAll(children)
      case Absent => 0
  }

  function WidthAll(nodes: seq<Node>): nat
    decreases nodes, 0
  {
    if nodes == [] then 0 else Width(nodes[0]) + WidthAll(nodes[1..])
  }

  /** The text leaves below a node whose opening token sits at offset `at`. */
  function Leaves(node: Node, at: nat): seq<TextLeaf>
    decreases node, 1
  {
    if IsTextLeaf(node) then [TextLeaf(node.text.value, at)]
    else match node.content
      case Present(children) => LeavesAll(children, at + 1)
      case Absent => []
  }

  function LeavesAll(nodes: seq<Node>, at: nat): seq<TextLeaf>
    decreases nodes, 0
  {
    if nodes == [] then [] else Leaves(nodes[0], at) + LeavesAll(nodes[1..], at + Width(nodes[0]))
  }

  method FlattenLeaves(node: Node, offset: OffsetRef) returns (leaves: seq<TextLeaf>)
    modifies offset
    ensures leaves == Leaves(node, old(offset.v))
    ensures offset.v == old(offset.v) + Width(node)
    decreases node
  {
    leaves := [];
    if node.kind == "text" && node.text.Some? {
      leaves := leaves + [TextLeaf(node.text.value, offset.v)];
      offset.v := offset.v + |node.text.value|;
      return;
    }
    if node.content.Present? {
      var children := node.content.children;
      offset.v := offset.v + 1;
      for k := 0 to |children|
        invariant LeavesAll(children, old(offset.v) + 1) == leaves + LeavesAll(children[k..], offset.v)
        invariant old(offset.v) + 1 + WidthAll(children) == offset.v + WidthAll(children[k..])
      {
        assert children[k..][0] == children[k] && children[k..][1..] == children[k + 1..];
        var below := FlattenLeaves(children[k], offset);
        leaves := leaves + below;
      }
      offset.v := offset.v + 1;
    }
  }

  /** Leaves lie between `lo` and `hi`, each starting no earlier than the one before it ends. */
  ghost predicate Laid(leaves: seq<TextLeaf>, lo: nat, hi: nat) {
    && (forall i :: 0 <= i < |leaves| ==> lo <= leaves[i].pos && leaves[i].End() <= hi)
    && (forall i, j :: 0 <= i < j < |leaves| ==> leaves[i].End() <= leaves[j].pos)
  }

  lemma {:induction false} LeavesAreLaid(node: Node, at: nat)
    ensures Laid(Leaves(node, at), at, at + Width(node))
    decreases node, 1
  {
    if !IsTextLeaf(node) && node.content.Present? {
      LeavesAllAreLaid(node.content.children, at + 1);
    }
  }

  lemma {:induction false} LeavesAllAreLaid(nodes: seq<Node>, at: nat)
    ensures Laid(LeavesAll(nodes, at), at, at + WidthAll(nodes))
    decreases nodes, 0
  {
    if nodes != [] {
      LeavesAreLaid(nodes[0], at);
      LeavesAllAreLaid(nodes[1..], at + Width(nodes[0]));
    }
  }

  // ---------------------------------------------------------------- where a leaf sits

  /** A document as its editor counts it: a token before and after a container's children, and runs of text. */
  datatype Token = Opening | Closing | Run(text: string)

  function Tokens(node: Node): seq<Token>
    decreases node, 1
  {
    if node.kind == "text" && node.text.Some? then [Run(node.text.value)]
    else match node.content
      case Present(children) => [Opening] + TokensAll(children) + [Closing]
      case Absent => []
  }

  function TokensAll(nodes: seq<Node>): seq<Token>
    decreases nodes, 0
  {
    if nodes == [] then [] else Tokens(nodes[0]) + TokensAll(nodes[1..])
  }

  /** A bracket counts one, a run its characters. */
  function Length(tokens: seq<Token>): nat {
    if tokens == [] then 0 else Length(Init(tokens)) + if Last(tokens).Run? then |Last(tokens).text| else 1
  }

  function RunCount(tokens: seq<Token>): nat {
    if tokens == [] then 0 else RunCount(Init(tokens)) + if Last(tokens).Run? then 1 else 0
  }

  /** The leaves are the runs, one each and in order, each as far behind `at` as the tokens before it are long. */
  ghost predicate AreRuns(leaves: seq<TextLeaf>, tokens: seq<Token>, at: nat) {
    && |leaves| == RunCount(tokens)
    && forall k :: 0 <= k < |tokens| && tokens[k].Run? ==>
         RunCount(tokens[..k]) < |leaves| &&
         leaves[RunCount(tokens[..k])] == TextLeaf(tokens[k].text, at + Length(tokens[..k]))
  }

  lemma {:induction false} TokensAppend(a: seq<Token>, b: seq<Token>)
    ensures Length(a + b) == Length(a) + Length(b)
    ensures RunCount(a + b) == RunCount(a) + RunCount(b)
    decreases |b|
  {
    if b == [] {
      assert a + b == a;
    } else {
      assert Init(a + b) == a + Init(b) && Last(a + b) == Last(b);
      TokensAppend(a, Init(b));
    }
  }

  lemma RunsAppend(a: seq<TextLeaf>, ta: seq<Token>, b: seq<TextLeaf>, tb: seq<Token>, at: nat)
    requires AreRuns(a, ta, at) && AreRuns(b, tb, at + Length(ta))
    ensures AreRuns(a + b, ta + tb, at)
  {
    hide Length, RunCount;
    var tokens, leaves := ta + tb, a + b;
    TokensAppend(ta, tb);
    forall k | 0 <= k < |tokens| && tokens[k].Run?
      ensures RunCount(tokens[..k]) < |leaves| &&
              leaves[RunCount(tokens[..k])] == TextLeaf(tokens[k].text, at + Length(tokens[..k]))
    {
      if k < |ta| {
        assert tokens[..k] == ta[..k];
      } else {
        assert tokens[..k] == ta + tb[..k - |ta|] && tokens[k] == tb[k - |ta|];
        TokensAppend(ta, tb[..k - |ta|]);
      }
    }
  }

  lemma BracketsAreNoRuns(token: Token, at: nat)
    ensures !token.Run? ==> AreRuns([], [token], at) && Length([token]) == 1
    ensures token.Run? ==> AreRuns([TextLeaf(token.text, at)], [token], at) && Length([token]) == |token.text|
  {
    assert Init([token]) == [] && [token][..0] == [];
  }

  /** Every leaf is a run of text of the document, every run a leaf, and a leaf's position is that of its
      first character. */
  lemma {:induction false} LeavesAreRuns(node: Node, at: nat)
    ensures AreRuns(Leaves(node, at), Tokens(node), at) && Length(Tokens(node)) == Width(node)
    decreases node, 1
  {
    hide AreRuns, Length;
    if IsTextLeaf(node) {
      BracketsAreNoRuns(Run(node.text.value), at);
    } else if node.content.Present? {
      var inner, leaves := TokensAll(node.content.children), LeavesAll(node.content.children, at + 1);
      BracketsAreNoRuns(Opening, at);
      BracketsAreNoRuns(Closing, at + 1 + Length(inner));
      LeavesAllAreRuns(node.content.children, at + 1);
      RunsAppend([], [Opening], leaves, inner, at);
      TokensAppend([Opening], inner);
      TokensAppend([Opening] + inner, [Closing]);
      RunsAppend([] + leaves, [Opening] + inner, [], [Closing], at);
      assert [] + leaves + [] == leaves;
    } else {
      NoTokens(at);
    }
  }

  lemma NoTokens(at: nat)
    ensures AreRuns([], [], at) && Length([]) == 0
  {
  }

  lemma {:induction false} LeavesAllAreRuns(nodes: seq<Node>, at: nat)
    ensures AreRuns(LeavesAll(nodes, at), TokensAll(nodes), at) && Length(TokensAll(nodes)) == WidthAll(nodes)
    decreases nodes, 0
  {
    hide AreRuns, Length;
    if nodes == [] {
      NoTokens(at);
    } else {
      LeavesAreRuns(nodes[0], at);
      LeavesAllAreRuns(nodes[1..], at + Width(nodes[0]));
      RunsAppend(Leaves(nodes[0], at), Tokens(nodes[0]), LeavesAll(nodes[1..], at + Width(nodes[0])),
                 TokensAll(nodes[1..]), at);
      TokensAppend(Tokens(nodes[0]), TokensAll(nodes[1..]));
    }
  }

  /** One position of the editor: a bracket, or a character of text. */
  datatype Unit = Bracket | Letter(c: char)

  function Spread(tokens: seq<Token>): seq<Unit> {
    if tokens == [] then []
    else Spread(Init(tokens)) + UnitsOf(Last(tokens))
  }

  function Letters(text: string): (units: seq<Unit>)
    ensures |units| == |text|
  {
    seq(|text|, i requires 0 <= i < |text| => Letter(text[i]))
  }

  predicate Holds(leaf: TextLeaf, pos: nat) { leaf.pos <= pos < leaf.End() }

  /** The leaf's stretch is exactly its text. */
  predicate Spells(leaf: TextLeaf, units: seq<Unit>, at: nat) {
    at <= leaf.pos && leaf.End() <= at + |units| && units[leaf.pos - at..leaf.End() - at] == Letters(leaf.text)
  }

  /** Each leaf spells its text, and no character is outside every leaf. */
  ghost predicate CoverLetters(leaves: seq<TextLeaf>, units: seq<Unit>, at: nat) {
    && (forall i :: 0 <= i < |leaves| ==> Spells(leaves[i], units, at))
    && (forall k: nat :: k < |units| && units[k].Letter? ==> exists i :: 0 <= i < |leaves| && Holds(leaves[i], at + k))
  }

  lemma {:induction false} RunsCoverLetters(leaves: seq<TextLeaf>, tokens: seq<Token>, at: nat)
    requires AreRuns(leaves, tokens, at)
    ensures |Spread(tokens)| == Length(tokens) && CoverLetters(leaves, Spread(tokens), at)
    decreases |tokens|
  {
    hide CoverLetters;
    if tokens == [] {
      assert CoverLetters([], [], at) by { NothingCovered(at); }
    } else {
      var front, last := Init(tokens), Last(tokens);
      var n := RunCount(front);
      assert forall k :: 0 <= k < |front| ==> front[..k] == tokens[..k] && front[k] == tokens[k];
      FewerRuns(front);
      RunsCoverLetters(leaves[..n], front, at);
      assert tokens[..|front|] == front;
      TokenCovers(last, at + Length(front));
      CoverAppend(leaves[..n], Spread(front), LeafOf(last, at + Length(front)), UnitsOf(last), at);
      assert leaves == leaves[..n] + LeafOf(last, at + Length(front));
    }
  }

  lemma NothingCovered(at: nat)
    ensures CoverLetters([], [], at)
  {
  }

  lemma {:induction false} FewerRuns(tokens: seq<Token>)
    ensures forall k :: 0 <= k < |tokens| && tokens[k].Run? ==> RunCount(tokens[..k]) < RunCount(tokens)
    decreases |tokens|
  {
    if tokens != [] {
      var front := Init(tokens);
      FewerRuns(front);
      assert forall k :: 0 <= k < |front| ==> front[..k] == tokens[..k] && front[k] == tokens[k];
    }
  }

  lemma CoverAppend(a: seq<TextLeaf>, ua: seq<Unit>, b: seq<TextLeaf>, ub: seq<Unit>, at: nat)
    requires CoverLetters(a, ua, at) && CoverLetters(b, ub, at + |ua|)
    ensures CoverLetters(a + b, ua + ub, at)
  {
    hide Letters, Holds;
    var leaves, units := a + b, ua + ub;
    forall i | 0 <= i < |leaves| ensures Spells(leaves[i], units, at) {
      var leaf := leaves[i];
      if i < |a| {
        assert Spells(a[i], ua, at);
        assert units[leaf.pos - at..leaf.End() - at] == ua[leaf.pos - at..leaf.End() - at];
      } else {
        assert Spells(b[i - |a|], ub, at + |ua|);
        assert units[leaf.pos - at..leaf.End() - at] == ub[leaf.pos - at - |ua|..leaf.End() - at - |ua|];
      }
    }
    forall k: nat | k < |units| && units[k].Letter?
      ensures exists i :: 0 <= i < |leaves| && Holds(leaves[i], at + k)
    {
      if k < |ua| {
        var i :| 0 <= i < |a| && Holds(a[i], at + k);
        assert leaves[i] == a[i];
      } else {
        var i :| 0 <= i < |b| && Holds(b[i], at + |ua| + (k - |ua|));
        assert leaves[|a| + i] == b[i];
      }
    }
  }

  function LeafOf(token: Token, pos: nat): seq<TextLeaf> {
    if token.Run? then [TextLeaf(token.text, pos)] else []
  }

  function UnitsOf(token: Token): seq<Unit> {
    if token.Run? then Letters(token.text) else [Bracket]
  }

  lemma TextCovers(text: string, at: nat)
    ensures CoverLetters([TextLeaf(text, at)], Letters(text), at)
  {
    hide Letters, Spells, Holds;
    var leaf, units := TextLeaf(text, at), Letters(text);
    LeafSpells(leaf);
    forall k: nat | k < |units| && units[k].Letter?
      ensures exists i :: 0 <= i < |[leaf]| && Holds([leaf][i], at + k)
    {
      LeafHolds(leaf, at + k);
      assert Holds([leaf][0], at + k);
    }
  }

  lemma LeafSpells(leaf: TextLeaf)
    ensures Spells(leaf, Letters(leaf.text), leaf.pos)
  {
    hide Letters;
    var units := Letters(leaf.text);
    assert units[0..|units|] == units;
  }

  lemma LeafHolds(leaf: TextLeaf, pos: nat)
    requires leaf.pos <= pos < leaf.pos + |leaf.text|
    ensures Holds(leaf, pos)
  {
  }

  lemma TokenCovers(token: Token, at: nat)
    ensures CoverLetters(LeafOf(token, at), UnitsOf(token), at)
  {
    hide Letters;
    if token.Run? { TextCovers(token.text, at); }
  }

  /** In the document's own positions: each leaf's stretch holds exactly its characters, and each character
      lies in exactly one leaf. */
  lemma LeavesHoldTheLetters(node: Node, at: nat)
    ensures var leaves, units := Leaves(node, at), Spread(Tokens(node));
      && |units| == Width(node) && CoverLetters(leaves, units, at)
      && forall k: nat, i, j ::
           0 <= i < |leaves| && 0 <= j < |leaves| && Holds(leaves[i], k) && Holds(leaves[j], k) ==> i == j
  {
    LeavesAreRuns(node, at);
    RunsCoverLetters(Leaves(node, at), Tokens(node), at);
    LeavesAreLaid(node, at);
  }

  function Texts(leaves: seq<TextLeaf>): (r: seq<string>)
    ensures |r| == |leaves|
    ensures forall i :: 0 <= i < |leaves| ==> r[i] == leaves[i].text
  {
    seq(|leaves|, i requires 0 <= i < |leaves| => leaves[i].text)
  }

  // ---------------------------------------------------------------- longest common subsequences

  function Init<T>(s: seq<T>): seq<T>
    requires s != []
  {
    s[..|s| - 1]
  }

  function Last<T>(s: seq<T>): T
    requires s != []
  {
    s[|s| - 1]
  }

  function Max(x: nat, y: nat): nat { if x >= y then x else y }

  ghost predicate Subsequence<T>(s: seq<T>, a: seq<T>)
    decreases |a|
  {
    s == [] ||
    (a != [] && ((Last(s) == Last(a) && Subsequence(Init(s), Init(a))) || Subsequence(s, Init(a))))
  }

  ghost predicate Common<T>(s: seq<T>, a: seq<T>, b: seq<T>) {
    Subsequence(s, a) && Subsequence(s, b)
  }

  function Lcs<T(==)>(a: seq<T>, b: seq<T>): nat
    decreases |a| + |b|
  {
    if a == [] || b == [] then 0
    else if Last(a) == Last(b) then Lcs(Init(a), Init(b)) + 1
    else Max(Lcs(Init(a), b), Lcs(a, Init(b)))
  }

  lemma {:induction false} SubsequenceInit<T>(s: seq<T>, a: seq<T>)
    requires s != [] && Subsequence(s, a)
    ensures a != [] && Subsequence(Init(s), Init(a))
    decreases |a|
  {
    if !(Last(s) == Last(a) && Subsequence(Init(s), Init(a))) {
      SubsequenceInit(s, Init(a));
      SubsequenceWeaken(Init(s), Init(a));
    }
  }

  lemma {:induction false} SubsequenceWeaken<T>(s: seq<T>, a: seq<T>)
    requires a != [] && Subsequence(s, Init(a))
    ensures Subsequence(s, a)
  {
  }

  /** No common subsequence is longer than `Lcs`. */
  lemma {:induction false} LcsIsUpperBound<T>(s: seq<T>, a: seq<T>, b: seq<T>)
    requires Common(s, a, b)
    ensures |s| <= Lcs(a, b)
    decreases |a| + |b|
  {
    if s != [] {
      if Last(a) == Last(b) {
        SubsequenceInit(s, a);
        SubsequenceInit(s, b);
        LcsIsUpperBound(Init(s), Init(a), Init(b));
      } else if Last(s) == Last(a) {
        LcsIsUpperBound(s, a, Init(b));
      } else {
        LcsIsUpperBound(s, Init(a), b);
      }
    }
  }

  ghost predicate IsLcsTable(dp: array2<nat>, a: seq<string>, b: seq<string>)
    reads dp
  {
    && dp.Length0 == |a| + 1 && dp.Length1 == |b| + 1
    && forall i, j :: 0 <= i <= |a| && 0 <= j <= |b| ==> dp[i, j] == Lcs(a[..i], b[..j])
  }

  method LcsTable(a: seq<string>, b: seq<string>) returns (dp: array2<nat>)
    ensures fresh(dp) && IsLcsTable(dp, a, b)
  {
    var m, n := |a|, |b|;
    dp := new nat[m + 1, n + 1]((_, _) => 0);
    for i := 1 to m + 1
      invariant forall x, y :: 0 <= x < i && 0 <= y <= n ==> dp[x, y] == Lcs(a[..x], b[..y])
      invariant forall x :: i <= x <= m ==> dp[x, 0] == 0
    {
      for j := 1 to n + 1
        invariant forall x, y :: 0 <= x < i && 0 <= y <= n ==> dp[x, y] == Lcs(a[..x], b[..y])
        invariant forall y :: 0 <= y < j ==> dp[i, y] == Lcs(a[..i], b[..y])
        invariant forall x :: i < x <= m ==> dp[x, 0] == 0
      {
        dp[i, j] := if a[i - 1] == b[j - 1] then dp[i - 1, j - 1] + 1
                    else Max(dp[i - 1, j], dp[i, j - 1]);
        assert Init(a[..i]) == a[..i - 1] && Init(b[..j]) == b[..j - 1];
      }
    }
  }

  // ---------------------------------------------------------------- edit scripts

  datatype Op = Keep | Insert | Delete

  /** The script reads `a` and `b` to their ends, keeping only equal elements. */
  ghost predicate Transforms<T>(ops: seq<Op>, a: seq<T>, b: seq<T>)
    decreases |ops|
  {
    if ops == [] then a == [] && b == []
    else match Last(ops)
      case Keep => a != [] && b != [] && Last(a) == Last(b) && Transforms(Init(ops), Init(a), Init(b))
      case Insert => b != [] && Transforms(Init(ops), a, Init(b))
      case Delete => a != [] && Transforms(Init(ops), Init(a), b)
  }

  /** The script fits sequences of these lengths. */
  predicate Fits(ops: seq<Op>, m: nat, n: nat)
    decreases |ops|
  {
    if ops == [] then m == 0 && n == 0
    else match Last(ops)
      case Keep => m > 0 && n > 0 && Fits(Init(ops), m - 1, n - 1)
      case Insert => n > 0 && Fits(Init(ops), m, n - 1)
      case Delete => m > 0 && Fits(Init(ops), m - 1, n)
  }

  function Cost(ops: seq<Op>): nat {
    if ops == [] then 0 else Cost(Init(ops)) + if Last(ops) == Keep then 0 else 1
  }

  /** What the old sequence keeps once its deleted elements are dropped. */
  function WithoutDeleted<T>(ops: seq<Op>, a: seq<T>, n: nat): seq<T>
    requires Fits(ops, |a|, n)
    decreases |ops|
  {
    if ops == [] then []
    else match Last(ops)
      case Keep => WithoutDeleted(Init(ops), Init(a), n - 1) + [Last(a)]
      case Insert => WithoutDeleted(Init(ops), a, n - 1)
      case Delete => WithoutDeleted(Init(ops), Init(a), n)
  }

  /** What the new sequence shares once its inserted elements are dropped. */
  function WithoutInserted<T>(ops: seq<Op>, m: nat, b: seq<T>): seq<T>
    requires Fits(ops, m, |b|)
    decreases |ops|
  {
    if ops == [] then []
    else match Last(ops)
      case Keep => WithoutInserted(Init(ops), m - 1, Init(b)) + [Last(b)]
      case Insert => WithoutInserted(Init(ops), m, Init(b))
      case Delete => WithoutInserted(Init(ops), m - 1, b)
  }

  function Deleted<T>(ops: seq<Op>, a: seq<T>, n: nat): seq<T>
    requires Fits(ops, |a|, n)
    decreases |ops|
  {
    if ops == [] then []
    else match Last(ops)
      case Keep => Deleted(Init(ops), Init(a), n - 1)
      case Insert => Deleted(Init(ops), a, n - 1)
      case Delete => Deleted(Init(ops), Init(a), n) + [Last(a)]
  }

  function Inserted<T>(ops: seq<Op>, m: nat, b: seq<T>): seq<T>
    requires Fits(ops, m, |b|)
    decreases |ops|
  {
    if ops == [] then []
    else match Last(ops)
      case Keep => Inserted(Init(ops), m - 1, Init(b))
      case Insert => Inserted(Init(ops), m, Init(b)) + [Last(b)]
      case Delete => Inserted(Init(ops), m - 1, b)
  }

  lemma {:induction false} TransformsFits<T>(ops: seq<Op>, a: seq<T>, b: seq<T>)
    requires Transforms(ops, a, b)
    ensures Fits(ops, |a|, |b|)
    decreases |ops|
  {
    if ops != [] {
      match Last(ops)
      case Keep => TransformsFits(Init(ops), Init(a), Init(b));
      case Insert => TransformsFits(Init(ops), a, Init(b));
      case Delete => TransformsFits(Init(ops), Init(a), b);
    }
  }

  /** Dropping the deletions from one side and the insertions from the other leaves the same
      sequence; it is common to both sides and accounts for everything the script does not touch. */
  lemma {:induction false} TransformsSurvivors<T>(ops: seq<Op>, a: seq<T>, b: seq<T>)
    requires Transforms(ops, a, b)
    ensures Fits(ops, |a|, |b|)
    ensures WithoutDeleted(ops, a, |b|) == WithoutInserted(ops, |a|, b)
    ensures Common(WithoutDeleted(ops, a, |b|), a, b)
    ensures Cost(ops) + 2 * |WithoutDeleted(ops, a, |b|)| == |a| + |b|
    decreases |ops|
  {
    TransformsFits(ops, a, b);
    if ops != [] {
      match Last(ops)
      case Keep =>
        TransformsSurvivors(Init(ops), Init(a), Init(b));
        var kept := WithoutDeleted(ops, a, |b|);
        assert Init(kept) == WithoutDeleted(Init(ops), Init(a), |b| - 1);
      case Insert =>
        TransformsSurvivors(Init(ops), a, Init(b));
        SubsequenceWeaken(WithoutDeleted(ops, a, |b|), b);
      case Delete =>
        TransformsSurvivors(Init(ops), Init(a), b);
        SubsequenceWeaken(WithoutDeleted(ops, a, |b|), a);
    }
  }

  /** The script chosen by the walk back from the bottom-right corner of the table. */
  function Script<T(==)>(a: seq<T>, b: seq<T>): seq<Op>
    decreases |a| + |b|
  {
    if a == [] && b == [] then []
    else if a != [] && b != [] && Last(a) == Last(b) then Script(Init(a), Init(b)) + [Keep]
    else if b != [] && (a == [] || Lcs(a, Init(b)) >= Lcs(Init(a), b)) then Script(a, Init(b)) + [Insert]
    else Script(Init(a), b) + [Delete]
  }

  lemma AppendOp(ops: seq<Op>, op: Op)
    ensures Init(ops + [op]) == ops && Last(ops + [op]) == op
    ensures Cost(ops + [op]) == Cost(ops) + if op == Keep then 0 else 1
  {
    assert Init(ops + [op]) == ops;
  }

  /** The chosen script turns `a` into `b`, at a cost fixed by the longest common subsequence. */
  lemma {:induction false} ScriptTransforms<T>(a: seq<T>, b: seq<T>)
    ensures Transforms(Script(a, b), a, b)
    ensures Cost(Script(a, b)) + 2 * Lcs(a, b) == |a| + |b|
    decreases |a| + |b|
  {
    if a == [] && b == [] {
    } else if a != [] && b != [] && Last(a) == Last(b) {
      ScriptTransforms(Init(a), Init(b));
      AppendOp(Script(Init(a), Init(b)), Keep);
    } else if b != [] && (a == [] || Lcs(a, Init(b)) >= Lcs(Init(a), b)) {
      ScriptTransforms(a, Init(b));
      AppendOp(Script(a, Init(b)), Insert);
    } else {
      ScriptTransforms(Init(a), b);
      AppendOp(Script(Init(a), b), Delete);
    }
  }

  /** `Lcs` is the length of a longest common subsequence. */
  lemma LcsIsLongest<T>(a: seq<T>, b: seq<T>)
    ensures exists s :: Common(s, a, b) && |s| == Lcs(a, b)
    ensures forall s :: Common(s, a, b) ==> |s| <= Lcs(a, b)
  {
    ScriptTransforms(a, b);
    TransformsSurvivors(Script(a, b), a, b);
    forall s | Common(s, a, b) ensures |s| <= Lcs(a, b) {
      LcsIsUpperBound(s, a, b);
    }
  }

  /** No script that turns `a` into `b` is cheaper than the one the walk chooses. */
  lemma ScriptIsCheapest<T>(a: seq<T>, b: seq<T>, ops: seq<Op>)
    requires Transforms(ops, a, b)
    ensures Cost(Script(a, b)) <= Cost(ops)
  {
    ScriptTransforms(a, b);
    TransformsSurvivors(ops, a, b);
    LcsIsUpperBound(WithoutDeleted(ops, a, |b|), a, b);
  }

  function Rank(op: Op): nat {
    match op
    case Keep => 0
    case Insert => 1
    case Delete => 2
  }

  /** Compared from the end, the first difference is in favour of `ops`: keep before insert before delete. */
  ghost predicate Preferred(ops: seq<Op>, other: seq<Op>)
    decreases |ops|
  {
    ops == other ||
    (ops != [] && other != [] &&
     (Rank(Last(ops)) < Rank(Last(other)) || (Last(ops) == Last(other) && Preferred(Init(ops), Init(other)))))
  }

  /** Among the cheapest scripts the walk chooses one that is preferred to all others, which leaves it no
      choice. */
  lemma {:induction false} ScriptIsPreferred<T>(a: seq<T>, b: seq<T>, other: seq<Op>)
    requires Transforms(other, a, b) && Cost(other) <= Cost(Script(a, b))
    ensures Preferred(Script(a, b), other)
    decreases |a| + |b|
  {
    var ops := Script(a, b);
    if other != [] {
      ScriptTransforms(a, b);
      ScriptLast(a, b);
      if Last(ops) == Last(other) {
        match Last(ops)
        case Keep => ScriptIsPreferred(Init(a), Init(b), Init(other));
        case Insert => ScriptIsPreferred(a, Init(b), Init(other));
        case Delete => ScriptIsPreferred(Init(a), b, Init(other));
      } else if Last(other) == Insert {
        ScriptIsCheapest(a, Init(b), Init(other));
        ScriptTransforms(a, Init(b));
      }
    }
  }

  lemma ScriptLast<T>(a: seq<T>, b: seq<T>)
    requires a != [] || b != []
    ensures Script(a, b) != []
    ensures match Last(Script(a, b))
      case Keep => a != [] && b != [] && Last(a) == Last(b) && Init(Script(a, b)) == Script(Init(a), Init(b))
      case Insert =>
        b != [] && !(a != [] && Last(a) == Last(b)) && Init(Script(a, b)) == Script(a, Init(b))
      case Delete =>
        a != [] && !(b != [] && Last(a) == Last(b)) && Init(Script(a, b)) == Script(Init(a), b) &&
        (b != [] ==> Lcs(a, Init(b)) < Lcs(a, b))
  {
  }

  /** Replays a script against the old sequence, taking inserted elements from `fresh`. */
  function Replay<T>(ops: seq<Op>, a: seq<T>, n: nat, inserted: seq<T>): Option<seq<T>>
    requires Fits(ops, |a|, n)
    decreases |ops|
  {
    if ops == [] then if inserted == [] then Some([]) else None
    else match Last(ops)
      case Keep =>
        (match Replay(Init(ops), Init(a), n - 1, inserted)
         case Some(r) => Some(r + [Last(a)])
         case None => None)
      case Insert =>
        if inserted == [] then None
        else (match Replay(Init(ops), a, n - 1, Init(inserted))
              case Some(r) => Some(r + [Last(inserted)])
              case None => None)
      case Delete => Replay(Init(ops), Init(a), n, inserted)
  }

  /** The old sequence and the inserted elements alone rebuild the new sequence. */
  lemma {:induction false} ReplayRebuilds<T>(ops: seq<Op>, a: seq<T>, b: seq<T>)
    requires Transforms(ops, a, b)
    ensures Fits(ops, |a|, |b|)
    ensures Replay(ops, a, |b|, Inserted(ops, |a|, b)) == Some(b)
    decreases |ops|
  {
    TransformsFits(ops, a, b);
    if ops != [] {
      match Last(ops)
      case Keep =>
        ReplayRebuilds(Init(ops), Init(a), Init(b));
        assert Init(b) + [Last(a)] == b;
      case Insert =>
        ReplayRebuilds(Init(ops), a, Init(b));
        var ins := Inserted(ops, |a|, b);
        assert Init(ins) == Inserted(Init(ops), |a|, Init(b));
        assert Init(b) + [Last(b)] == b;
      case Delete => ReplayRebuilds(Init(ops), Init(a), b);
    }
  }

  // ---------------------------------------------------------------- hunks

  datatype HunkType = InsertHunk | DeleteHunk

  /** `serial` is the number in the hunk's id, `ins-<serial>` or `del-<serial>`. */
  datatype Hunk = Hunk(kind: HunkType, serial: nat, from: nat, to: nat)

  function HunkFor(kind: HunkType, serial: nat, leaf: TextLeaf): Hunk {
    Hunk(kind, serial, leaf.pos, leaf.End())
  }

  /** One hunk per changed leaf, in document order, numbered from the last one backwards. */
  function HunksOf(ops: seq<Op>, la: seq<TextLeaf>, lb: seq<TextLeaf>, serial: nat): seq<Hunk>
    requires Fits(ops, |la|, |lb|)
    decreases |ops|
  {
    if ops == [] then []
    else match Last(ops)
      case Keep => HunksOf(Init(ops), Init(la), Init(lb), serial)
      case Insert => HunksOf(Init(ops), la, Init(lb), serial + 1) + [HunkFor(InsertHunk, serial, Last(lb))]
      case Delete => HunksOf(Init(ops), Init(la), lb, serial + 1) + [HunkFor(DeleteHunk, serial, Last(la))]
  }

  const SIZE_CUTOFF := 200_000

  predicate TooLarge(la: seq<TextLeaf>, lb: seq<TextLeaf>) {
    |la| * |lb| > SIZE_CUTOFF
  }

  /** Above the cut-off: one hunk over each document that has any leaf. */
  function WholeDocumentHunks(la: seq<TextLeaf>, lb: seq<TextLeaf>): seq<Hunk> {
    (if la == [] then [] else [Hunk(DeleteHunk, 0, la[0].pos, Last(la).End())]) +
    (if lb == [] then [] else [Hunk(InsertHunk, 0, lb[0].pos, Last(lb).End())])
  }

  lemma ScriptFits<T>(a: seq<T>, b: seq<T>)
    ensures Fits(Script(a, b), |a|, |b|)
  {
    ScriptTransforms(a, b);
    TransformsFits(Script(a, b), a, b);
  }

  /** The hunks between two leaf lists, numbered from `serial`. */
  function ScriptHunks(la: seq<TextLeaf>, lb: seq<TextLeaf>, serial: nat): seq<Hunk> {
    ScriptFits(Texts(la), Texts(lb));
    HunksOf(Script(Texts(la), Texts(lb)), la, lb, serial)
  }

  function LeafDiff(la: seq<TextLeaf>, lb: seq<TextLeaf>): seq<Hunk> {
    if TooLarge(la, lb) then WholeDocumentHunks(la, lb) else ScriptHunks(la, lb, 0)
  }

  /** One turn of the walk: what `ScriptHunks` makes of the last leaves. */
  lemma ScriptHunksStep(la: seq<TextLeaf>, lb: seq<TextLeaf>, serial: nat)
    requires la != [] || lb != []
    ensures la != [] && lb != [] && Last(la).text == Last(lb).text ==>
              ScriptHunks(la, lb, serial) == ScriptHunks(Init(la), Init(lb), serial)
    ensures !(la != [] && lb != [] && Last(la).text == Last(lb).text) ==>
              if lb != [] && (la == [] || Lcs(Texts(la), Texts(Init(lb))) >= Lcs(Texts(Init(la)), Texts(lb)))
              then ScriptHunks(la, lb, serial) ==
                   ScriptHunks(la, Init(lb), serial + 1) + [HunkFor(InsertHunk, serial, Last(lb))]
              else la != [] && ScriptHunks(la, lb, serial) ==
                   ScriptHunks(Init(la), lb, serial + 1) + [HunkFor(DeleteHunk, serial, Last(la))]
  {
    var a, b := Texts(la), Texts(lb);
    ScriptFits(a, b);
    if la != [] { assert Init(a) == Texts(Init(la)); }
    if lb != [] { assert Init(b) == Texts(Init(lb)); }
    if la != [] && lb != [] && Last(a) == Last(b) {
      ScriptFits(Init(a), Init(b));
      AppendOp(Script(Init(a), Init(b)), Keep);
    } else if lb != [] && (la == [] || Lcs(a, Init(b)) >= Lcs(Init(a), b)) {
      ScriptFits(a, Init(b));
      AppendOp(Script(a, Init(b)), Insert);
    } else {
      ScriptFits(Init(a), b);
      AppendOp(Script(Init(a), b), Delete);
    }
  }

  method ComputeLcsDiff(original: Node, updated: Node) returns (hunks: seq<Hunk>)
    ensures hunks == LeafDiff(Leaves(original, 0), Leaves(updated, 0))
  {
    var offsetA := new OffsetRef();
    var offsetB := new OffsetRef();
    var leavesA := FlattenLeaves(original, offsetA);
    var leavesB := FlattenLeaves(updated, offsetB);
    var textsA, textsB := Texts(leavesA), Texts(leavesB);

    hunks := [];
    if |textsA| * |textsB| > 200_000 {
      if |textsA| > 0 {
        hunks := hunks + [Hunk(DeleteHunk, 0, leavesA[0].pos,
                               leavesA[|leavesA| - 1].pos + |leavesA[|leavesA| - 1].text|)];
      }
      if |textsB| > 0 {
        hunks := hunks + [Hunk(InsertHunk, 0, leavesB[0].pos,
                               leavesB[|leavesB| - 1].pos + |leavesB[|leavesB| - 1].text|)];
      }
      return;
    }

    var dp := LcsTable(textsA, textsB);
    hunks := Backtrack(leavesA, leavesB, textsA, textsB, dp);
  }

  /** The walk back through the table, from its bottom-right corner. */
  method Backtrack(leavesA: seq<TextLeaf>, leavesB: seq<TextLeaf>,
                   textsA: seq<string>, textsB: seq<string>, dp: array2<nat>) returns (hunks: seq<Hunk>)
    requires textsA == Texts(leavesA) && textsB == Texts(leavesB)
    requires IsLcsTable(dp, textsA, textsB)
    ensures hunks == ScriptHunks(leavesA, leavesB, 0)
  {
    hide StillToWalk;
    hunks := [];
    var i, j, hunkId := |textsA|, |textsB|, 0;
    WalkStarts(leavesA, leavesB);
    while i > 0 || j > 0
      invariant 0 <= i <= |textsA| && 0 <= j <= |textsB|
      invariant StillToWalk(leavesA, leavesB, i, j, hunkId, hunks)
      decreases i + j
    {
      if i > 0 && j > 0 && textsA[i - 1] == textsB[j - 1] {
        StepOverEqual(leavesA, leavesB, i, j, hunkId, hunks);
        i := i - 1;
        j := j - 1;
      } else if j > 0 && (i == 0 || dp[i, j - 1] >= dp[i - 1, j]) {
        StepOverInsertion(leavesA, leavesB, i, j, hunkId, hunks, dp);
        var leaf := leavesB[j - 1];
        hunks := [HunkFor(InsertHunk, hunkId, leaf)] + hunks;
        hunkId := hunkId + 1;
        j := j - 1;
      } else {
        StepOverDeletion(leavesA, leavesB, i, j, hunkId, hunks, dp);
        var leaf := leavesA[i - 1];
        hunks := [HunkFor(DeleteHunk, hunkId, leaf)] + hunks;
        hunkId := hunkId + 1;
        i := i - 1;
      }
      assert StillToWalk(leavesA, leavesB, i, j, hunkId, hunks);
    }
    WalkEnds(leavesA, leavesB, hunkId, hunks);
  }

  lemma WalkStarts(la: seq<TextLeaf>, lb: seq<TextLeaf>)
    ensures StillToWalk(la, lb, |la|, |lb|, 0, [])
  {
    assert la[..|la|] == la && lb[..|lb|] == lb;
  }

  lemma WalkEnds(la: seq<TextLeaf>, lb: seq<TextLeaf>, serial: nat, hunks: seq<Hunk>)
    requires StillToWalk(la, lb, 0, 0, serial, hunks)
    ensures hunks == ScriptHunks(la, lb, 0)
  {
  }

  ghost predicate StillToWalk(la: seq<TextLeaf>, lb: seq<TextLeaf>, i: nat, j: nat, serial: nat, hunks: seq<Hunk>)
    requires i <= |la| && j <= |lb|
  {
    ScriptHunks(la, lb, 0) == ScriptHunks(la[..i], lb[..j], serial) + hunks
  }

  lemma StepOverEqual(la: seq<TextLeaf>, lb: seq<TextLeaf>, i: nat, j: nat, serial: nat, hunks: seq<Hunk>)
    requires 0 < i <= |la| && 0 < j <= |lb| && la[i - 1].text == lb[j - 1].text
    requires StillToWalk(la, lb, i, j, serial, hunks)
    ensures StillToWalk(la, lb, i - 1, j - 1, serial, hunks)
  {
    ScriptHunksStep(la[..i], lb[..j], serial);
    assert Init(la[..i]) == la[..i - 1] && Init(lb[..j]) == lb[..j - 1];
  }

  lemma StepOverInsertion(la: seq<TextLeaf>, lb: seq<TextLeaf>, i: nat, j: nat, serial: nat, hunks: seq<Hunk>,
                          dp: array2<nat>)
    requires i <= |la| && 0 < j <= |lb| && IsLcsTable(dp, Texts(la), Texts(lb))
    requires i == 0 || (la[i - 1].text != lb[j - 1].text && dp[i, j - 1] >= dp[i - 1, j])
    requires StillToWalk(la, lb, i, j, serial, hunks)
    ensures StillToWalk(la, lb, i, j - 1, serial + 1, [HunkFor(InsertHunk, serial, lb[j - 1])] + hunks)
  {
    WalkReadsTable(la, lb, i, j, dp);
    ScriptHunksStep(la[..i], lb[..j], serial);
    Rebracket(ScriptHunks(la[..i], lb[..j - 1], serial + 1), HunkFor(InsertHunk, serial, lb[j - 1]), hunks);
  }

  lemma StepOverDeletion(la: seq<TextLeaf>, lb: seq<TextLeaf>, i: nat, j: nat, serial: nat, hunks: seq<Hunk>,
                         dp: array2<nat>)
    requires 0 < i <= |la| && j <= |lb| && IsLcsTable(dp, Texts(la), Texts(lb))
    requires j == 0 || (la[i - 1].text != lb[j - 1].text && dp[i, j - 1] < dp[i - 1, j])
    requires StillToWalk(la, lb, i, j, serial, hunks)
    ensures StillToWalk(la, lb, i - 1, j, serial + 1, [HunkFor(DeleteHunk, serial, la[i - 1])] + hunks)
  {
    WalkReadsTable(la, lb, i, j, dp);
    ScriptHunksStep(la[..i], lb[..j], serial);
    Rebracket(ScriptHunks(la[..i - 1], lb[..j], serial + 1), HunkFor(DeleteHunk, serial, la[i - 1]), hunks);
  }

  lemma Rebracket<T>(front: seq<T>, x: T, back: seq<T>)
    ensures (front + [x]) + back == front + ([x] + back)
  {
  }

  /** The two entries the walk compares are the two lengths the script compares. */
  lemma WalkReadsTable(la: seq<TextLeaf>, lb: seq<TextLeaf>, i: nat, j: nat, dp: array2<nat>)
    requires i <= |la| && j <= |lb| && IsLcsTable(dp, Texts(la), Texts(lb))
    ensures i > 0 ==> Init(la[..i]) == la[..i - 1]
    ensures j > 0 ==> Init(lb[..j]) == lb[..j - 1]
    ensures i > 0 && j > 0 ==> dp[i, j - 1] == Lcs(Texts(la[..i]), Texts(Init(lb[..j])))
    ensures i > 0 && j > 0 ==> dp[i - 1, j] == Lcs(Texts(Init(la[..i])), Texts(lb[..j]))
  {
    assert Texts(la[..i]) == Texts(la)[..i] && Texts(lb[..j]) == Texts(lb)[..j];
    if i > 0 { assert Texts(Init(la[..i])) == Texts(la)[..i - 1]; }
    if j > 0 { assert Texts(Init(lb[..j])) == Texts(lb)[..j - 1]; }
  }

  // ---------------------------------------------------------------- what the hunks say

  /** Hunks of one kind, in list order. */
  function OfKind(hunks: seq<Hunk>, kind: HunkType): seq<Hunk> {
    if hunks == [] then []
    else OfKind(Init(hunks), kind) + if Last(hunks).kind == kind then [Last(hunks)] else []
  }

  /** The hunks of this kind mark exactly these leaves, in order. */
  ghost predicate Marks(hunks: seq<Hunk>, kind: HunkType, leaves: seq<TextLeaf>) {
    && |OfKind(hunks, kind)| == |leaves|
    && forall k :: 0 <= k < |leaves| ==>
         OfKind(hunks, kind)[k].from == leaves[k].pos && OfKind(hunks, kind)[k].to == leaves[k].End()
  }

  lemma OfKindAppend(hunks: seq<Hunk>, h: Hunk, kind: HunkType)
    ensures OfKind(hunks + [h], kind) == OfKind(hunks, kind) + if h.kind == kind then [h] else []
  {
    assert Init(hunks + [h]) == hunks;
  }

  lemma {:induction false} HunksAreNumbered(ops: seq<Op>, la: seq<TextLeaf>, lb: seq<TextLeaf>, serial: nat)
    requires Fits(ops, |la|, |lb|)
    ensures var hunks := HunksOf(ops, la, lb, serial);
      && |hunks| == Cost(ops)
      && forall k :: 0 <= k < |hunks| ==> hunks[k].serial == serial + |hunks| - 1 - k
    decreases |ops|
  {
    if ops != [] {
      match Last(ops)
      case Keep => HunksAreNumbered(Init(ops), Init(la), Init(lb), serial);
      case Insert => HunksAreNumbered(Init(ops), la, Init(lb), serial + 1);
      case Delete => HunksAreNumbered(Init(ops), Init(la), lb, serial + 1);
    }
  }

  lemma MarksAppend(front: seq<Hunk>, h: Hunk, kind: HunkType, leaves: seq<TextLeaf>, leaf: TextLeaf)
    requires Marks(front, kind, leaves)
    ensures h.kind != kind ==> Marks(front + [h], kind, leaves)
    ensures h == HunkFor(kind, h.serial, leaf) ==> Marks(front + [h], kind, leaves + [leaf])
  {
    OfKindAppend(front, h, kind);
  }

  /** Deletion hunks mark the deleted leaves and insertion hunks the inserted ones, one each. */
  lemma {:induction false} HunksFollowScript(ops: seq<Op>, la: seq<TextLeaf>, lb: seq<TextLeaf>, serial: nat)
    requires Fits(ops, |la|, |lb|)
    ensures Marks(HunksOf(ops, la, lb, serial), DeleteHunk, Deleted(ops, la, |lb|))
    ensures Marks(HunksOf(ops, la, lb, serial), InsertHunk, Inserted(ops, |la|, lb))
    decreases |ops|
  {
    if ops != [] {
      match Last(ops)
      case Keep => HunksFollowScript(Init(ops), Init(la), Init(lb), serial);
      case Insert =>
        HunksFollowScript(Init(ops), la, Init(lb), serial + 1);
        var front, h := HunksOf(Init(ops), la, Init(lb), serial + 1), HunkFor(InsertHunk, serial, Last(lb));
        MarksAppend(front, h, DeleteHunk, Deleted(Init(ops), la, |lb| - 1), Last(lb));
        MarksAppend(front, h, InsertHunk, Inserted(Init(ops), |la|, Init(lb)), Last(lb));
      case Delete =>
        HunksFollowScript(Init(ops), Init(la), lb, serial + 1);
        var front, h := HunksOf(Init(ops), Init(la), lb, serial + 1), HunkFor(DeleteHunk, serial, Last(la));
        MarksAppend(front, h, DeleteHunk, Deleted(Init(ops), Init(la), |lb|), Last(la));
        MarksAppend(front, h, InsertHunk, Inserted(Init(ops), |la| - 1, lb), Last(la));
    }
  }

  function Kinds(hunks: seq<Hunk>): seq<HunkType> {
    seq(|hunks|, k requires 0 <= k < |hunks| => hunks[k].kind)
  }

  /** The changes of a script, in order. */
  function Changes(ops: seq<Op>): seq<HunkType> {
    if ops == [] then []
    else Changes(Init(ops)) + match Last(ops)
                              case Keep => []
                              case Insert => [InsertHunk]
                              case Delete => [DeleteHunk]
  }

  /** Insertions and deletions come in the order in which the script makes them. */
  lemma {:induction false} HunksAreInOrder(ops: seq<Op>, la: seq<TextLeaf>, lb: seq<TextLeaf>, serial: nat)
    requires Fits(ops, |la|, |lb|)
    ensures Kinds(HunksOf(ops, la, lb, serial)) == Changes(ops)
    decreases |ops|
  {
    if ops != [] {
      match Last(ops)
      case Keep => HunksAreInOrder(Init(ops), Init(la), Init(lb), serial);
      case Insert => HunksAreInOrder(Init(ops), la, Init(lb), serial + 1);
      case Delete => HunksAreInOrder(Init(ops), Init(la), lb, serial + 1);
    }
  }

  /** The stretch is the smallest that contains all the leaves. */
  ghost predicate IsHull(h: Hunk, leaves: seq<TextLeaf>) {
    && (forall leaf :: leaf in leaves ==> h.from <= leaf.pos && leaf.End() <= h.to)
    && (exists leaf :: leaf in leaves && leaf.pos == h.from)
    && (exists leaf :: leaf in leaves && leaf.End() == h.to)
  }

  /** Above the cut-off the hunks are one deletion and one insertion, each over all the leaves of its side. */
  lemma LargeDiffIsHulls(original: Node, updated: Node)
    requires |Leaves(original, 0)| * |Leaves(updated, 0)| > 200_000
    ensures var hunks := LeafDiff(Leaves(original, 0), Leaves(updated, 0));
      && Kinds(hunks) == [DeleteHunk, InsertHunk] && hunks[0].serial == 0 && hunks[1].serial == 0
      && IsHull(hunks[0], Leaves(original, 0)) && IsHull(hunks[1], Leaves(updated, 0))
  {
    var la, lb := Leaves(original, 0), Leaves(updated, 0);
    LeavesAreLaid(original, 0);
    LeavesAreLaid(updated, 0);
    FirstToLast(DeleteHunk, la, Width(original));
    FirstToLast(InsertHunk, lb, Width(updated));
  }

  lemma FirstToLast(kind: HunkType, leaves: seq<TextLeaf>, end: nat)
    requires Laid(leaves, 0, end) && leaves != []
    ensures IsHull(Hunk(kind, 0, leaves[0].pos, Last(leaves).End()), leaves)
  {
    assert leaves[0] in leaves && Last(leaves) in leaves;
  }

  /** Below the cut-off the number of hunks is fixed by the longest common subsequence, and no
      script that turns one text sequence into the other changes fewer leaves. */
  lemma DiffIsMinimal(la: seq<TextLeaf>, lb: seq<TextLeaf>)
    requires |la| * |lb| <= 200_000
    ensures |LeafDiff(la, lb)| + 2 * Lcs(Texts(la), Texts(lb)) == |la| + |lb|
    ensures forall ops :: Transforms(ops, Texts(la), Texts(lb)) ==> |LeafDiff(la, lb)| <= Cost(ops)
  {
    var a, b := Texts(la), Texts(lb);
    ScriptFits(a, b);
    ScriptTransforms(a, b);
    HunksAreNumbered(Script(a, b), la, lb, 0);
    forall ops | Transforms(ops, a, b) ensures |LeafDiff(la, lb)| <= Cost(ops) {
      ScriptIsCheapest(a, b, ops);
    }
  }

  ghost predicate Covered(hunks: seq<Hunk>, kind: HunkType, leaf: TextLeaf) {
    exists h :: h in hunks && h.kind == kind && h.from <= leaf.pos && leaf.End() <= h.to
  }

  /** A script the hunks account for: every leaf it deletes or inserts lies inside a hunk of that kind. */
  ghost predicate Explains(ops: seq<Op>, hunks: seq<Hunk>, la: seq<TextLeaf>, lb: seq<TextLeaf>) {
    && Transforms(ops, Texts(la), Texts(lb))
    && Fits(ops, |la|, |lb|)
    && (forall leaf :: leaf in Deleted(ops, la, |lb|) ==> Covered(hunks, DeleteHunk, leaf))
    && (forall leaf :: leaf in Inserted(ops, |la|, lb) ==> Covered(hunks, InsertHunk, leaf))
  }

  lemma WholeDocumentExplains(la: seq<TextLeaf>, lb: seq<TextLeaf>, endA: nat, endB: nat)
    requires Laid(la, 0, endA) && Laid(lb, 0, endB)
    ensures Explains(ReplaceAll(|la|, |lb|), WholeDocumentHunks(la, lb), la, lb)
  {
    ReplaceAllTransforms(Texts(la), Texts(lb));
    TransformsFits(ReplaceAll(|la|, |lb|), Texts(la), Texts(lb));
    ReplaceAllChangesAll(la, lb);
    HullCovers(WholeDocumentHunks(la, lb), DeleteHunk, la, endA);
    HullCovers(WholeDocumentHunks(la, lb), InsertHunk, lb, endB);
  }

  lemma ScriptExplains(la: seq<TextLeaf>, lb: seq<TextLeaf>)
    ensures Explains(Script(Texts(la), Texts(lb)), ScriptHunks(la, lb, 0), la, lb)
  {
    var ops := Script(Texts(la), Texts(lb));
    ScriptTransforms(Texts(la), Texts(lb));
    ScriptFits(Texts(la), Texts(lb));
    HunksFollowScript(ops, la, lb, 0);
    MarkedIsCovered(HunksOf(ops, la, lb, 0), DeleteHunk, Deleted(ops, la, |lb|));
    MarkedIsCovered(HunksOf(ops, la, lb, 0), InsertHunk, Inserted(ops, |la|, lb));
  }

  /** On both sides of the cut-off: some script turns the old texts into the new ones and
      everything it changes is marked. */
  lemma DiffIsSound(original: Node, updated: Node) returns (ops: seq<Op>)
    ensures Explains(ops, LeafDiff(Leaves(original, 0), Leaves(updated, 0)),
                     Leaves(original, 0), Leaves(updated, 0))
  {
    var la, lb := Leaves(original, 0), Leaves(updated, 0);
    if TooLarge(la, lb) {
      LeavesAreLaid(original, 0);
      LeavesAreLaid(updated, 0);
      WholeDocumentExplains(la, lb, Width(original), Width(updated));
      ops := ReplaceAll(|la|, |lb|);
    } else {
      ScriptExplains(la, lb);
      ops := Script(Texts(la), Texts(lb));
    }
  }

  lemma HullCovers(hunks: seq<Hunk>, kind: HunkType, leaves: seq<TextLeaf>, end: nat)
    requires Laid(leaves, 0, end)
    requires leaves != [] ==> Hunk(kind, 0, leaves[0].pos, Last(leaves).End()) in hunks
    ensures forall leaf :: leaf in leaves ==> Covered(hunks, kind, leaf)
  {
    forall leaf | leaf in leaves ensures Covered(hunks, kind, leaf) {
      var k :| 0 <= k < |leaves| && leaves[k] == leaf;
      var h := Hunk(kind, 0, leaves[0].pos, Last(leaves).End());
      assert leaves[0].pos <= leaves[k].pos && leaves[k].End() <= Last(leaves).End();
      assert h in hunks;
    }
  }

  lemma {:induction false} OfKindIsFrom(hunks: seq<Hunk>, kind: HunkType)
    ensures forall h :: h in OfKind(hunks, kind) <==> h in hunks && h.kind == kind
  {
    if hunks != [] {
      OfKindIsFrom(Init(hunks), kind);
      assert hunks == Init(hunks) + [Last(hunks)];
    }
  }

  lemma MarkedIsCovered(hunks: seq<Hunk>, kind: HunkType, leaves: seq<TextLeaf>)
    requires Marks(hunks, kind, leaves)
    ensures forall leaf :: leaf in leaves ==> Covered(hunks, kind, leaf)
  {
    OfKindIsFrom(hunks, kind);
    forall leaf | leaf in leaves ensures Covered(hunks, kind, leaf) {
      var k :| 0 <= k < |leaves| && leaves[k] == leaf;
      assert OfKind(hunks, kind)[k] in OfKind(hunks, kind);
    }
  }

  /** Delete everything, then insert everything. */
  function ReplaceAll(m: nat, n: nat): seq<Op> {
    if n > 0 then ReplaceAll(m, n - 1) + [Insert]
    else if m > 0 then ReplaceAll(m - 1, 0) + [Delete]
    else []
  }

  lemma {:induction false} ReplaceAllTransforms<T>(a: seq<T>, b: seq<T>)
    ensures Transforms(ReplaceAll(|a|, |b|), a, b)
    decreases |a| + |b|
  {
    if b != [] {
      ReplaceAllTransforms(a, Init(b));
      AppendOp(ReplaceAll(|a|, |b| - 1), Insert);
    } else if a != [] {
      ReplaceAllTransforms(Init(a), b);
      AppendOp(ReplaceAll(|a| - 1, 0), Delete);
    }
  }

  lemma {:induction false} ReplaceAllChangesAll<T>(a: seq<T>, b: seq<T>)
    ensures Fits(ReplaceAll(|a|, |b|), |a|, |b|)
    ensures Deleted(ReplaceAll(|a|, |b|), a, |b|) == a
    ensures Inserted(ReplaceAll(|a|, |b|), |a|, b) == b
    decreases |a| + |b|
  {
    hide Deleted, Inserted, Fits;
    if b == [] && a == [] {
      NothingChanged(a, b);
    } else if b != [] {
      var ops := ReplaceAll(|a|, |b| - 1);
      assert ReplaceAll(|a|, |b|) == ops + [Insert];
      AppendOp(ops, Insert);
      ReplaceAllChangesAll(a, Init(b));
      FitsMore(ops, Insert, |a|, |b| - 1);
      DeletedByMore(ops, Insert, a, |b|);
      InsertedByMore(ops, Insert, |a|, b);
      assert Init(b) + [Last(b)] == b;
    } else {
      var ops := ReplaceAll(|a| - 1, 0);
      assert ReplaceAll(|a|, 0) == ops + [Delete];
      AppendOp(ops, Delete);
      ReplaceAllChangesAll(Init(a), b);
      FitsMore(ops, Delete, |a| - 1, |b|);
      DeletedByMore(ops, Delete, a, |b|);
      InsertedByMore(ops, Delete, |a|, b);
      assert Init(a) + [Last(a)] == a;
    }
  }

  lemma NothingChanged<T>(a: seq<T>, b: seq<T>)
    requires a == [] && b == []
    ensures Fits([], |a|, |b|) && Deleted([], a, |b|) == [] && Inserted([], |a|, b) == []
  {
  }

  lemma FitsMore(ops: seq<Op>, op: Op, m: nat, n: nat)
    requires Fits(ops, m, n) && op != Keep
    ensures if op == Insert then Fits(ops + [op], m, n + 1) else Fits(ops + [op], m + 1, n)
  {
    AppendOp(ops, op);
  }

  lemma DeletedByMore<T>(ops: seq<Op>, op: Op, a: seq<T>, n: nat)
    requires Fits(ops + [op], |a|, n) && op != Keep
    ensures if op == Insert then n > 0 && Fits(ops, |a|, n - 1) && Deleted(ops + [op], a, n) == Deleted(ops, a, n - 1)
            else |a| > 0 && Fits(ops, |a| - 1, n) && Deleted(ops + [op], a, n) == Deleted(ops, Init(a), n) + [Last(a)]
  {
    AppendOp(ops, op);
  }

  lemma InsertedByMore<T>(ops: seq<Op>, op: Op, m: nat, b: seq<T>)
    requires Fits(ops + [op], m, |b|) && op != Keep
    ensures if op == Delete then m > 0 && Fits(ops, m - 1, |b|) && Inserted(ops + [op], m, b) == Inserted(ops, m - 1, b)
            else |b| > 0 && Fits(ops, m, |b| - 1) && Inserted(ops + [op], m, b) == Inserted(ops, m, Init(b)) + [Last(b)]
  {
    AppendOp(ops, op);
  }

  /** No hunks means equal texts, and below the cut-off equal texts mean no hunks. */
  lemma DiffIsEmptyExactly(la: seq<TextLeaf>, lb: seq<TextLeaf>)
    ensures LeafDiff(la, lb) == [] <==> Texts(la) == Texts(lb) && |la| * |lb| <= 200_000
  {
    var a, b := Texts(la), Texts(lb);
    if !TooLarge(la, lb) {
      DiffIsMinimal(la, lb);
      ScriptTransforms(a, b);
      if Cost(Script(a, b)) == 0 {
        FreeScriptCopies(Script(a, b), a, b);
      }
      KeepAllTransforms(a);
      assert a == b ==> |LeafDiff(la, lb)| <= Cost(seq(|a|, _ => Keep));
    }
  }

  lemma {:induction false} FreeScriptCopies<T>(ops: seq<Op>, a: seq<T>, b: seq<T>)
    requires Transforms(ops, a, b) && Cost(ops) == 0
    ensures a == b
    decreases |ops|
  {
    if ops != [] {
      FreeScriptCopies(Init(ops), Init(a), Init(b));
      assert a == Init(a) + [Last(a)] && b == Init(b) + [Last(b)];
    }
  }

  lemma {:induction false} KeepAllTransforms<T>(a: seq<T>)
    ensures var ops := seq(|a|, _ => Keep); Transforms(ops, a, a) && Cost(ops) == 0
  {
    if a != [] {
      KeepAllTransforms(Init(a));
      assert Init(seq(|a|, _ => Keep)) == seq(|a| - 1, _ => Keep);
    }
  }

  /** Hunks of one kind come in document order without overlapping, and no two hunks share an id. */
  lemma DiffIsOrdered(original: Node, updated: Node)
    ensures var hunks := LeafDiff(Leaves(original, 0), Leaves(updated, 0));
      && (forall p, q :: 0 <= p < q < |hunks| && hunks[p].kind == hunks[q].kind ==> hunks[p].to <= hunks[q].from)
      && (forall p, q :: 0 <= p < q < |hunks| ==>
            hunks[p].kind != hunks[q].kind || hunks[p].serial != hunks[q].serial)
  {
    var la, lb := Leaves(original, 0), Leaves(updated, 0);
    LeavesAreLaid(original, 0);
    LeavesAreLaid(updated, 0);
    if !TooLarge(la, lb) {
      ScriptFits(Texts(la), Texts(lb));
      HunksAreNumbered(Script(Texts(la), Texts(lb)), la, lb, 0);
      HunksAreOrdered(Script(Texts(la), Texts(lb)), la, lb, 0, Width(original), Width(updated));
    }
  }

  ghost predicate Ordered(hunks: seq<Hunk>, endA: nat, endB: nat) {
    && (forall h :: h in hunks ==> h.to <= if h.kind == DeleteHunk then endA else endB)
    && (forall p, q :: 0 <= p < q < |hunks| && hunks[p].kind == hunks[q].kind ==> hunks[p].to <= hunks[q].from)
  }

  lemma OrderedAppend(front: seq<Hunk>, h: Hunk, endA: nat, endB: nat)
    requires h.from <= h.to
    requires h.kind == DeleteHunk ==> Ordered(front, h.from, endB) && h.to <= endA
    requires h.kind == InsertHunk ==> Ordered(front, endA, h.from) && h.to <= endB
    ensures Ordered(front + [h], endA, endB)
  {
    forall p, q | 0 <= p < q < |front + [h]| && (front + [h])[p].kind == (front + [h])[q].kind
      ensures (front + [h])[p].to <= (front + [h])[q].from
    {
      if q == |front| { assert front[p] in front; }
    }
  }

  lemma {:induction false} HunksAreOrdered(ops: seq<Op>, la: seq<TextLeaf>, lb: seq<TextLeaf>, serial: nat,
                                           endA: nat, endB: nat)
    requires Fits(ops, |la|, |lb|) && Laid(la, 0, endA) && Laid(lb, 0, endB)
    ensures Ordered(HunksOf(ops, la, lb, serial), endA, endB)
    decreases |ops|
  {
    if ops != [] {
      match Last(ops)
      case Keep => HunksAreOrdered(Init(ops), Init(la), Init(lb), serial, endA, endB);
      case Insert =>
        HunksAreOrdered(Init(ops), la, Init(lb), serial + 1, endA, Last(lb).pos);
        OrderedAppend(HunksOf(Init(ops), la, Init(lb), serial + 1), HunkFor(InsertHunk, serial, Last(lb)), endA, endB);
      case Delete =>
        HunksAreOrdered(Init(ops), Init(la), lb, serial + 1, Last(la).pos, endB);
        OrderedAppend(HunksOf(Init(ops), Init(la), lb, serial + 1), HunkFor(DeleteHunk, serial, Last(la)), endA, endB);
    }
  }

  // ---------------------------------------------------------------- streaming display

  /** While the stream runs, show the longest prefix that does not end in a deletion. */
  method SuppressTrailingDeletions(hunks: seq<Hunk>, isComplete: bool) returns (shown: seq<Hunk>)
    ensures isComplete ==> shown == hunks
    ensures !isComplete ==>
      && shown <= hunks
      && (shown != [] ==> Last(shown).kind != DeleteHunk)
      && (forall longer :: shown < longer <= hunks ==> Last(longer).kind == DeleteHunk)
    ensures OfKind(shown, InsertHunk) == OfKind(hunks, InsertHunk)
  {
    if isComplete {
      return hunks;
    }
    var lastNonDelete := |hunks| - 1;
    assert hunks[..lastNonDelete + 1] == hunks;
    while lastNonDelete >= 0 && hunks[lastNonDelete].kind == DeleteHunk
      invariant -1 <= lastNonDelete < |hunks|
      invariant forall k :: lastNonDelete < k < |hunks| ==> hunks[k].kind == DeleteHunk
      invariant OfKind(hunks[..lastNonDelete + 1], InsertHunk) == OfKind(hunks, InsertHunk)
    {
      assert Init(hunks[..lastNonDelete + 1]) == hunks[..lastNonDelete];
      lastNonDelete := lastNonDelete - 1;
    }
    return hunks[..lastNonDelete + 1];
  }
}
