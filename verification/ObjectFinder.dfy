/** The innermost object around the cursor, found among the tokens of the text. */
module ObjectFinder {
  datatype Kind = LCurly | RCurly | Other

  datatype Token = Token(kind: Kind, begin: int, end: int)

  datatype ObjectInfo = NoObject | Object(begin: int, end: int, tokens: seq<Token>)

  function Delta(t: Token): int {
    match t.kind
    case LCurly => 1
    case RCurly => -1
    case Other => 0
  }

  /** Braces opened less braces closed. */
  function Balance(ts: seq<Token>, a: nat, b: nat): int
    requires a <= b <= |ts|
    decreases b
  {
    if a == b then 0 else Balance(ts, a, b - 1) + Delta(ts[b - 1])
  }

  /** The balance of what comes after a place. */
  function Since(ts: seq<Token>, i: nat, b: nat): int
    requires i < b <= |ts|
  {
    Balance(ts, i + 1, b)
  }

  /** What is opened at a place has not been closed before another. */
  ghost predicate OpenUntil(ts: seq<Token>, i: nat, k: nat)
    requires i < k <= |ts|
  {
    && ts[i].kind == LCurly
    && forall m | i < m <= k :: Since(ts, i, m) >= 0
  }

  ghost predicate Matched(ts: seq<Token>, i: nat, j: nat)
    requires j < |ts|
  {
    i < j && ts[j].kind == RCurly && OpenUntil(ts, i, j) && Since(ts, i, j) == 0
  }

  predicate Contains(ts: seq<Token>, i: nat, j: nat, cursor: int)
    requires i < |ts| && j < |ts|
  {
    ts[i].begin <= cursor <= ts[j].begin
  }

  /** A matched pair around the cursor. */
  ghost predicate Around(ts: seq<Token>, cursor: int, i: nat, j: nat) {
    i < j < |ts| && Matched(ts, i, j) && Contains(ts, i, j, cursor)
  }

  /** More is closed than was opened. */
  predicate UnderflowsAt(ts: seq<Token>, k: nat) {
    k < |ts| && Balance(ts, 0, k + 1) < 0
  }

  ghost predicate NoUnderflowBefore(ts: seq<Token>, k: nat) {
    forall m | 0 <= m < k :: !UnderflowsAt(ts, m)
  }

  /** The tokens follow each other in the text. */
  ghost predicate Ordered(ts: seq<Token>) {
    forall i, j | 0 <= i < j < |ts| :: ts[i].begin < ts[j].begin
  }

  // ---- The stack ----

  /** The stack holds just the places that are still open, and how deep they are. */
  ghost predicate StackOk(ts: seq<Token>, k: nat, stack: seq<nat>)
    requires k <= |ts|
  {
    && Balance(ts, 0, k) == |stack|
    && (forall p | 0 <= p < |stack| :: EntryOk(ts, k, stack, p))
    && (forall i | 0 <= i < k && OpenUntil(ts, i, k) :: i in stack)
  }

  ghost predicate EntryOk(ts: seq<Token>, k: nat, stack: seq<nat>, p: nat)
    requires k <= |ts| && p < |stack|
  {
    stack[p] < k && OpenUntil(ts, stack[p], k) && Since(ts, stack[p], k) == |stack| - 1 - p
  }

  lemma BalanceNext(ts: seq<Token>, a: nat, k: nat)
    requires a <= k < |ts|
    ensures Balance(ts, a, k + 1) == Balance(ts, a, k) + Delta(ts[k])
  {
  }

  lemma OpenOneMore(ts: seq<Token>, i: nat, k: nat)
    requires i < k < |ts|
    ensures Since(ts, i, k + 1) == Since(ts, i, k) + Delta(ts[k])
    ensures OpenUntil(ts, i, k + 1) <==> OpenUntil(ts, i, k) && Since(ts, i, k + 1) >= 0
  {
  }

  /** What is closed at a place was opened at the top of the stack, and nowhere else. */
  lemma TopMatches(ts: seq<Token>, k: nat, stack: seq<nat>, i: nat)
    requires k < |ts| && StackOk(ts, k, stack) && ts[k].kind == RCurly && stack != []
    ensures Matched(ts, i, k) <==> i == stack[|stack| - 1]
  {
    hide OpenUntil;
    var top := |stack| - 1;
    assert EntryOk(ts, k, stack, top);
    if Matched(ts, i, k) {
      var p :| 0 <= p < |stack| && stack[p] == i;
      assert EntryOk(ts, k, stack, p);
    }
  }

  lemma NothingMatches(ts: seq<Token>, k: nat, i: nat)
    requires k < |ts| && StackOk(ts, k, []) && ts[k].kind == RCurly
    ensures !Matched(ts, i, k) && UnderflowsAt(ts, k)
  {
    hide OpenUntil;
  }

  lemma PushKeeps(ts: seq<Token>, k: nat, stack: seq<nat>)
    requires k < |ts| && StackOk(ts, k, stack) && ts[k].kind == LCurly
    ensures StackOk(ts, k + 1, stack + [k])
  {
    hide OpenUntil;
    var t := stack + [k];
    var next := k + 1;
    BalanceNext(ts, 0, k);
    forall p | 0 <= p < |t|
      ensures EntryOk(ts, next, t, p)
    {
      if p < |stack| {
        assert EntryOk(ts, k, stack, p);
        OpenOneMore(ts, stack[p], k);
      } else {
        OpenJust(ts, k);
      }
    }
    forall i | 0 <= i < k + 1 && OpenUntil(ts, i, k + 1)
      ensures i in t
    {
      if i < k {
        OpenOneMore(ts, i, k);
      }
    }
  }

  lemma OpenJust(ts: seq<Token>, k: nat)
    requires k < |ts| && ts[k].kind == LCurly
    ensures OpenUntil(ts, k, k + 1)
  {
  }

  lemma PopKeeps(ts: seq<Token>, k: nat, stack: seq<nat>)
    requires k < |ts| && StackOk(ts, k, stack) && ts[k].kind == RCurly && stack != []
    ensures StackOk(ts, k + 1, stack[..|stack| - 1])
  {
    hide OpenUntil;
    var t := stack[..|stack| - 1];
    assert EntryOk(ts, k, stack, |t|);
    var next := k + 1;
    BalanceNext(ts, 0, k);
    forall p | 0 <= p < |t|
      ensures EntryOk(ts, next, t, p)
    {
      assert EntryOk(ts, k, stack, p);
      OpenOneMore(ts, stack[p], k);
    }
    forall i | 0 <= i < k + 1 && OpenUntil(ts, i, k + 1)
      ensures i in t
    {
      NotOpenAtClose(ts, i, k);
      OpenOneMore(ts, i, k);
      var p :| 0 <= p < |stack| && stack[p] == i;
      assert EntryOk(ts, k, stack, p);
      assert p < |t| && t[p] == i;
    }
  }

  lemma NotOpenAtClose(ts: seq<Token>, i: nat, k: nat)
    requires i <= k < |ts| && OpenUntil(ts, i, k + 1) && ts[k].kind == RCurly
    ensures i < k
  {
  }

  lemma OtherKeeps(ts: seq<Token>, k: nat, stack: seq<nat>)
    requires k < |ts| && StackOk(ts, k, stack) && ts[k].kind == Other
    ensures StackOk(ts, k + 1, stack)
  {
    hide OpenUntil;
    var next := k + 1;
    BalanceNext(ts, 0, k);
    forall p | 0 <= p < |stack|
      ensures EntryOk(ts, next, stack, p)
    {
      assert EntryOk(ts, k, stack, p);
      OpenOneMore(ts, stack[p], k);
    }
    forall i | 0 <= i < k + 1 && OpenUntil(ts, i, k + 1)
      ensures i in stack
    {
      NotOpenAtOther(ts, i, k);
      OpenOneMore(ts, i, k);
    }
  }

  lemma NotOpenAtOther(ts: seq<Token>, i: nat, k: nat)
    requires i <= k < |ts| && OpenUntil(ts, i, k + 1) && ts[k].kind == Other
    ensures i < k
  {
  }

  /** Every other pair around the cursor encloses this one. */
  ghost predicate Innermost(ts: seq<Token>, cursor: int, i: nat, j: nat) {
    Around(ts, cursor, i, j)
    && forall x: nat, y: nat | Around(ts, cursor, x, y) :: (x == i && y == j) || (x < i && j < y)
  }

  lemma {:induction false} BalanceAdds(ts: seq<Token>, a: nat, b: nat, c: nat)
    requires a <= b <= c <= |ts|
    ensures Balance(ts, a, c) == Balance(ts, a, b) + Balance(ts, b, c)
    decreases c
  {
    if b < c {
      BalanceAdds(ts, a, b, c - 1);
    }
  }

  lemma BalanceFromOpening(ts: seq<Token>, a: nat, i: nat, k: nat)
    requires a <= i < k <= |ts| && ts[i].kind == LCurly
    ensures Balance(ts, a, k) == Balance(ts, a, i) + 1 + Since(ts, i, k)
  {
    BalanceAdds(ts, a, i, k);
    BalanceAdds(ts, i, i + 1, k);
    assert Balance(ts, i, i + 1) == Balance(ts, i, i) + Delta(ts[i]);
  }

  /** Matched pairs do not cross. */
  lemma PairsNest(ts: seq<Token>, i: nat, j: nat, x: nat, y: nat)
    requires j < |ts| && y < |ts| && Matched(ts, i, j) && Matched(ts, x, y) && i < x < j
    ensures y < j
  {
    BalanceFromOpening(ts, i + 1, x, j);
    assert Since(ts, i, x) >= 0;
  }

  lemma FirstIsInnermost(ts: seq<Token>, cursor: int, i: nat, j: nat)
    requires Ordered(ts) && Around(ts, cursor, i, j) && forall x: nat, y: nat | y < j :: !Around(ts, cursor, x, y)
    ensures Innermost(ts, cursor, i, j)
  {
    hide Balance;
    forall x: nat, y: nat | Around(ts, cursor, x, y)
      ensures (x == i && y == j) || (x < i && j < y)
    {
      assert j <= y;
      assert x < j;
      hide Around, Matched, Ordered, Contains;
      FirstEncloses(ts, i, j, x, y);
    }
  }

  lemma FirstEncloses(ts: seq<Token>, i: nat, j: nat, x: nat, y: nat)
    requires j < |ts| && y < |ts| && Matched(ts, i, j) && Matched(ts, x, y) && j <= y && x < j
    ensures (x == i && y == j) || (x < i && j < y)
  {
    if i < x {
      PairsNest(ts, i, j, x, y);
    } else if x < i && y == j {
      PairsNest(ts, x, y, i, j);
    } else if x == i && j < y {
      ClosedPast(ts, i, j, y);
    }
  }

  lemma ClosedPast(ts: seq<Token>, i: nat, j: nat, y: nat)
    requires j < y < |ts| && Matched(ts, i, j)
    ensures !OpenUntil(ts, i, y)
  {
    BalanceNext(ts, i + 1, j);
    assert Since(ts, i, j + 1) == -1;
  }

  lemma EmptyStack(ts: seq<Token>)
    ensures StackOk(ts, 0, [])
  {
  }

  lemma TopIsOpen(ts: seq<Token>, k: nat, stack: seq<nat>)
    requires k <= |ts| && StackOk(ts, k, stack) && stack != []
    ensures stack[|stack| - 1] < k
  {
    assert EntryOk(ts, k, stack, |stack| - 1);
  }

  /** Only the top of the stack can make a pair around the cursor that is closed here. */
  lemma OnlyTheTop(ts: seq<Token>, k: nat, stack: seq<nat>, cursor: int, x: nat)
    requires k < |ts| && StackOk(ts, k, stack) && Around(ts, cursor, x, k)
    ensures ts[k].kind == RCurly && stack != [] && x == stack[|stack| - 1]
    ensures ts[x].begin <= cursor <= ts[k].begin
  {
    hide StackOk, OpenUntil;
    if stack == [] {
      NothingMatches(ts, k, x);
    } else {
      TopMatches(ts, k, stack, x);
    }
  }

  lemma StackMeansNoUnderflow(ts: seq<Token>, k: nat, stack: seq<nat>)
    requires k < |ts| && StackOk(ts, k + 1, stack)
    ensures !UnderflowsAt(ts, k)
  {
  }

  ghost predicate NoneClosedBefore(ts: seq<Token>, cursor: int, k: nat) {
    forall x: nat, y: nat | y < k :: !Around(ts, cursor, x, y)
  }

  /**
   * Finds an object just if the cursor is in one that is closed before any brace too many; then it is the one
   * closed first, which is the innermost if the tokens are in order.
   */
  method GetObjectAt(ts: seq<Token>, cursor: int) returns (r: ObjectInfo, ghost i: nat, ghost j: nat)
    ensures r.Object? <==> exists x: nat, y: nat :: Around(ts, cursor, x, y) && NoUnderflowBefore(ts, y)
    ensures r.Object? ==> Around(ts, cursor, i, j) && r == Object(ts[i].begin, ts[j].end, ts[i..j + 1])
    ensures r.Object? && Ordered(ts) ==> Innermost(ts, cursor, i, j)
    ensures NoUnderflowBefore(ts, |ts|) ==> (r.Object? <==> exists x: nat, y: nat :: Around(ts, cursor, x, y))
  {
    hide Matched, StackOk, Balance, Around, Innermost, NoUnderflowBefore, Ordered, UnderflowsAt;
    i, j := 0, 0;
    BalancedCountsAll(ts, cursor);
    var stack: seq<nat> := [];
    EmptyStack(ts);
    NoUnderflowYet(ts);
    var k := 0;
    while k < |ts|
      invariant k <= |ts| && StackOk(ts, k, stack) && NoUnderflowBefore(ts, k) && NoneClosedBefore(ts, cursor, k)
    {
      ghost var before := stack;
      match ts[k].kind {
        case LCurly =>
          PushKeeps(ts, k, stack);
          stack := stack + [k];
        case RCurly =>
          if stack == [] {
            NothingMatches(ts, k, 0);
            Underflow(ts, cursor, k);
            return NoObject, 0, 0;
          }
          var top := |stack| - 1;
          TopIsOpen(ts, k, stack);
          TopMatches(ts, k, stack, stack[top]);
          if ts[stack[top]].begin <= cursor && ts[k].begin >= cursor {
            Found(ts, cursor, stack[top], k);
            return Object(ts[stack[top]].begin, ts[k].end, ts[stack[top]..k + 1]), stack[top], k;
          }
          PopKeeps(ts, k, stack);
          stack := stack[..top];
        case Other =>
          OtherKeeps(ts, k, stack);
      }
      NoneAt(ts, cursor, k, before);
      StackMeansNoUnderflow(ts, k, stack);
      OneMore(ts, k);
      k := k + 1;
    }
    NotFound(ts, cursor);
    r := NoObject;
  }

  /** With no brace too many, every pair counts. */
  lemma BalancedCountsAll(ts: seq<Token>, cursor: int)
    ensures NoUnderflowBefore(ts, |ts|) ==>
      forall x: nat, y: nat | Around(ts, cursor, x, y) :: NoUnderflowBefore(ts, y)
  {
    hide Matched, UnderflowsAt;
  }

  lemma NoUnderflowYet(ts: seq<Token>)
    ensures NoUnderflowBefore(ts, 0)
  {
  }

  lemma OneMore(ts: seq<Token>, k: nat)
    requires NoUnderflowBefore(ts, k) && !UnderflowsAt(ts, k)
    ensures NoUnderflowBefore(ts, k + 1)
  {
  }

  lemma NoneAt(ts: seq<Token>, cursor: int, k: nat, stack: seq<nat>)
    requires k < |ts| && StackOk(ts, k, stack) && NoneClosedBefore(ts, cursor, k)
    requires ts[k].kind == RCurly && stack != [] ==>
      var top := stack[|stack| - 1]; top < k && !(ts[top].begin <= cursor <= ts[k].begin)
    ensures NoneClosedBefore(ts, cursor, k + 1)
  {
    hide StackOk, Around;
    forall x: nat, y: nat | y < k + 1
      ensures !Around(ts, cursor, x, y)
    {
      if y == k && Around(ts, cursor, x, y) {
        OnlyTheTop(ts, k, stack, cursor, x);
      }
    }
  }

  lemma Underflow(ts: seq<Token>, cursor: int, k: nat)
    requires k < |ts| && UnderflowsAt(ts, k) && StackOk(ts, k, []) && NoneClosedBefore(ts, cursor, k)
    ensures !exists x: nat, y: nat :: Around(ts, cursor, x, y) && NoUnderflowBefore(ts, y)
  {
    hide StackOk, Around, UnderflowsAt;
    forall x: nat, y: nat | Around(ts, cursor, x, y)
      ensures !NoUnderflowBefore(ts, y)
    {
      if y == k {
        OnlyTheTop(ts, k, [], cursor, x);
      }
    }
  }

  lemma Found(ts: seq<Token>, cursor: int, i: nat, j: nat)
    requires i < j < |ts| && Matched(ts, i, j) && ts[i].begin <= cursor <= ts[j].begin
    requires NoUnderflowBefore(ts, j) && NoneClosedBefore(ts, cursor, j)
    ensures Around(ts, cursor, i, j)
    ensures exists x: nat, y: nat :: Around(ts, cursor, x, y) && NoUnderflowBefore(ts, y)
    ensures Ordered(ts) ==> Innermost(ts, cursor, i, j)
  {
    assert Around(ts, cursor, i, j);
    if Ordered(ts) {
      FirstIsInnermost(ts, cursor, i, j);
    }
  }

  lemma NotFound(ts: seq<Token>, cursor: int)
    requires NoneClosedBefore(ts, cursor, |ts|)
    ensures !exists x: nat, y: nat :: Around(ts, cursor, x, y) && NoUnderflowBefore(ts, y)
  {
  }

  // ---- A brace too many ----

  /** `}{}` */
  function BraceTooMany(): seq<Token> {
    [Token(RCurly, 0, 1), Token(LCurly, 1, 2), Token(RCurly, 2, 3)]
  }

  /** A closing brace too many hides the objects after it: with the cursor on the last, none is found. */
  lemma UnderflowHidesObjects()
    ensures Ordered(BraceTooMany()) && Around(BraceTooMany(), 2, 1, 2)
    ensures !exists x: nat, y: nat :: Around(BraceTooMany(), 2, x, y) && NoUnderflowBefore(BraceTooMany(), y)
  {
    var ts := BraceTooMany();
    BalanceNext(ts, 0, 0);
    assert UnderflowsAt(ts, 0);
    assert Since(ts, 1, 2) == 0;
    assert Matched(ts, 1, 2);
  }
}
