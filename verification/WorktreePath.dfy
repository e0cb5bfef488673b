/** Which item's worktree a path lies in, and whether its claim keeps the caller out. */
module WorktreePath {
  import opened Wrappers
  import opened Substrings

  // ---- Components ----

  predicate IsSeparator(c: char) { c == '/' || c == '\\' }

  /** The parts between separators, of either kind, empty ones included. */
  function Split(path: string): (parts: seq<string>)
    ensures |parts| > 0
  {
    if path == "" then [""]
    else
      var front, c := Split(path[..|path| - 1]), path[|path| - 1];
      if IsSeparator(c) then front + [""]
      else front[..|front| - 1] + [front[|front| - 1] + [c]]
  }

  datatype Part = Nothing | Up | Name(name: string)

  function PartOf(c: string): Part {
    if c == "" || c == "." then Nothing else if c == ".." then Up else Name(c)
  }

  function Enter(stack: seq<string>, c: string): seq<string> {
    match PartOf(c)
    case Nothing => stack
    case Up => if stack == [] then [] else stack[..|stack| - 1]
    case Name(name) => stack + [name]
  }

  /** Where the parts lead from a directory; above the root there is only the root. */
  function Resolve(stack: seq<string>, parts: seq<string>): seq<string> {
    if parts == [] then stack else Enter(Resolve(stack, parts[..|parts| - 1]), parts[|parts| - 1])
  }

  predicate IsNumber(s: string) { forall i :: 0 <= i < |s| ==> '0' <= s[i] <= '9' }

  /** An item's worktree begins at `i`. */
  predicate IsWorktree(stack: seq<string>, i: nat) {
    i + 3 <= |stack| && stack[i] == ".worktrees" && stack[i + 1] == "task" && IsNumber(stack[i + 2])
  }

  /** The outermost worktree of an item. */
  function ItemFrom(stack: seq<string>, i: nat): (item: Option<string>)
    requires i <= |stack|
    ensures item.Some? ==> exists k: nat :: i <= k && IsWorktree(stack, k) && item.value == stack[k + 2]
                                            && forall j: nat :: i <= j < k ==> !IsWorktree(stack, j)
    ensures item.None? ==> forall k: nat :: i <= k ==> !IsWorktree(stack, k)
    decreases |stack| - i
  {
    if IsWorktree(stack, i) then Some(stack[i + 2])
    else if i == |stack| then None
    else ItemFrom(stack, i + 1)
  }

  function ItemOf(path: string): Option<string> {
    ItemFrom(Resolve([], Split(path)), 0)
  }

  method ItemSeqForPath(path: string) returns (item: Option<string>)
    ensures item == ItemOf(path)
  {
    var parts := Split(path);
    var stack: seq<string> := [];
    for n := 0 to |parts|
      invariant stack == Resolve([], parts[..n])
    {
      assert parts[..n + 1][..n] == parts[..n];
      var c := parts[n];
      if c == "" || c == "." {
      } else if c == ".." {
        if stack != [] {
          stack := stack[..|stack| - 1];
        }
      } else {
        stack := stack + [c];
      }
    }
    assert parts[..|parts|] == parts;
    for i := 0 to |stack|
      invariant ItemFrom(stack, 0) == ItemFrom(stack, i)
    {
      if IsWorktree(stack, i) {
        return Some(stack[i + 2]);
      }
    }
    item := None;
  }

  // ---- Only the components count ----

  /** Both kinds of separators are one. */
  ghost predicate SameButSeparators(p: string, q: string) {
    |p| == |q| && forall i :: 0 <= i < |p| ==> p[i] == q[i] || (IsSeparator(p[i]) && IsSeparator(q[i]))
  }

  lemma {:induction false} SeparatorsAreOne(p: string, q: string)
    requires SameButSeparators(p, q)
    ensures Split(p) == Split(q)
  {
    if p != "" {
      SeparatorsAreOne(p[..|p| - 1], q[..|q| - 1]);
    }
  }

  lemma SplitSnoc(front: string, c: char)
    ensures
      var parts := Split(front);
      Split(front + [c]) == if IsSeparator(c) then parts + [""]
                            else parts[..|parts| - 1] + [parts[|parts| - 1] + [c]]
  {
    assert (front + [c])[..|front|] == front;
  }

  lemma {:induction false} SplitAtSeparator(a: string, sep: char, b: string)
    requires IsSeparator(sep)
    ensures Split(a + [sep] + b) == Split(a) + Split(b)
  {
    if b == "" {
      assert a + [sep] + b == a + [sep];
      SplitSnoc(a, sep);
    } else {
      var front, c := b[..|b| - 1], b[|b| - 1];
      assert b == front + [c];
      ConcatAssociative(a + [sep], front, [c]);
      hide Split;
      SplitAtSeparator(a, sep, front);
      SplitSnoc(a + [sep] + front, c);
      SplitSnoc(front, c);
      if IsSeparator(c) {
        ConcatAssociative(Split(a), Split(front), [""]);
      } else {
        LastGrows(Split(a), Split(front), c);
      }
    }
  }

  lemma LastGrows(xs: seq<string>, ys: seq<string>, c: char)
    requires ys != []
    ensures
      var zs := xs + ys;
      zs[..|zs| - 1] + [zs[|zs| - 1] + [c]] == xs + (ys[..|ys| - 1] + [ys[|ys| - 1] + [c]])
  {
  }

  lemma {:induction false} ResolveConcat(stack: seq<string>, a: seq<string>, b: seq<string>)
    ensures Resolve(stack, a + b) == Resolve(Resolve(stack, a), b)
  {
    if b == [] {
      assert a + b == a;
    } else {
      assert (a + b)[..|a + b| - 1] == a + b[..|b| - 1];
      ResolveConcat(stack, a, b[..|b| - 1]);
    }
  }

  /** Parts that lead nowhere: none, the directory itself, or into a name and back. */
  ghost predicate LeadsNowhere(parts: seq<string>) {
    parts == [""] || parts == ["."] || (|parts| == 2 && PartOf(parts[0]).Name? && parts[1] == "..")
  }

  lemma NowhereIsHere(stack: seq<string>, parts: seq<string>)
    requires LeadsNowhere(parts)
    ensures Resolve(stack, parts) == stack
  {
    if |parts| == 1 {
      assert Resolve(stack, parts[..0]) == stack;
    } else {
      assert parts[..1][..0] == [];
      assert Resolve(stack, parts[..1]) == stack + [parts[0]];
    }
  }

  /** Empty parts, dots, and a name followed by dot-dot change nothing, wherever they are put. */
  lemma DetoursDoNotMatter(a: string, s: char, detour: string, t: char, b: string)
    requires IsSeparator(s) && IsSeparator(t) && LeadsNowhere(Split(detour))
    ensures ItemOf(a + [s] + detour + [t] + b) == ItemOf(a + [s] + b)
  {
    SplitAtSeparator(a + [s] + detour, t, b);
    SplitAtSeparator(a, s, detour);
    SplitAtSeparator(a, s, b);
    ResolveConcat([], Split(a) + Split(detour), Split(b));
    ResolveConcat([], Split(a), Split(detour));
    ResolveConcat([], Split(a), Split(b));
    NowhereIsHere(Resolve([], Split(a)), Split(detour));
  }

  // ---- Going deeper ----

  function Step(c: string): int {
    match PartOf(c) case Nothing => 0 case Up => -1 case Name(_) => 1
  }

  function Depth(parts: seq<string>): int {
    if parts == [] then 0 else Depth(parts[..|parts| - 1]) + Step(parts[|parts| - 1])
  }

  /** The path never leaves the directory it starts from. */
  ghost predicate StaysInside(parts: seq<string>) {
    forall n :: 0 <= n <= |parts| ==> Depth(parts[..n]) >= 0
  }

  lemma {:induction false} InsideIsBelow(stack: seq<string>, parts: seq<string>)
    requires StaysInside(parts)
    ensures |stack| <= |Resolve(stack, parts)| == |stack| + Depth(parts)
    ensures Resolve(stack, parts)[..|stack|] == stack
  {
    assert parts[..|parts|] == parts;
    if parts != [] {
      var front := parts[..|parts| - 1];
      assert forall n :: 0 <= n <= |front| ==> front[..n] == parts[..n];
      InsideIsBelow(stack, front);
      hide Depth;
      DepthSnoc(parts);
    }
  }

  lemma DepthSnoc(parts: seq<string>)
    requires parts != []
    ensures Depth(parts) == Depth(parts[..|parts| - 1]) + Step(parts[|parts| - 1])
  {
  }

  lemma ItemOfLonger(stack: seq<string>, longer: seq<string>)
    requires |stack| <= |longer| && longer[..|stack|] == stack && ItemFrom(stack, 0).Some?
    ensures ItemFrom(longer, 0) == ItemFrom(stack, 0)
  {
    assert forall i: nat :: i < |stack| ==> stack[i] == longer[i];
    assert forall i: nat :: i + 3 <= |stack| ==> (IsWorktree(stack, i) <==> IsWorktree(longer, i));
  }

  /** A path inside an item's worktree is in that item's worktree, however it winds, as long as it never leaves. */
  lemma DeeperKeepsTheItem(path: string, sep: char, relative: string)
    requires IsSeparator(sep) && ItemOf(path).Some? && StaysInside(Split(relative))
    ensures ItemOf(path + [sep] + relative) == ItemOf(path)
  {
    hide Split, Resolve, ItemFrom, StaysInside;
    SplitAtSeparator(path, sep, relative);
    ResolveConcat([], Split(path), Split(relative));
    InsideIsBelow(Resolve([], Split(path)), Split(relative));
    ItemOfLonger(Resolve([], Split(path)), Resolve(Resolve([], Split(path)), Split(relative)));
  }

  /** That many directories up from a path. */
  function Ascend(path: string, sep: char, n: nat): string {
    if n == 0 then path else Ascend(path, sep, n - 1) + [sep] + ".."
  }

  lemma SplitUp()
    ensures Split("..") == [".."]
  {
    var none, dot: string := "", ".";
    assert Split(none) == [""];
    SplitSnoc(none, '.');
    assert none + ['.'] == dot && Split(dot) == ["" + ['.']];
    SplitSnoc(dot, '.');
    assert dot + ['.'] == "..";
  }

  /** The directory so many above. */
  function Above(stack: seq<string>, n: nat): seq<string> {
    if n <= |stack| then stack[..|stack| - n] else []
  }

  lemma EnterUp(parts: seq<string>)
    ensures Resolve([], parts + [".."]) == Above(Resolve([], parts), 1)
  {
    assert (parts + [".."])[..|parts|] == parts;
    assert PartOf("..").Up?;
  }

  lemma AboveOnce(stack: seq<string>, n: nat)
    ensures Above(Above(stack, n), 1) == Above(stack, n + 1)
  {
  }

  lemma {:induction false} AscendResolves(path: string, sep: char, n: nat)
    requires IsSeparator(sep)
    ensures Resolve([], Split(Ascend(path, sep, n))) == Above(Resolve([], Split(path)), n)
  {
    if n > 0 {
      hide Split, Resolve, Above;
      var front := Ascend(path, sep, n - 1);
      AscendResolves(path, sep, n - 1);
      SplitAtSeparator(front, sep, "..");
      SplitUp();
      EnterUp(Split(front));
      AboveOnce(Resolve([], Split(path)), n - 1);
    } else {
      hide Split, Resolve;
    }
  }

  lemma ItemOfShorter(stack: seq<string>, k: nat, n: nat)
    requires IsWorktree(stack, k) && (forall j: nat :: j < k ==> !IsWorktree(stack, j)) && n <= |stack|
    ensures ItemFrom(stack[..n], 0) == if k + 3 <= n then Some(stack[k + 2]) else None
  {
    var shorter := stack[..n];
    assert forall i: nat :: i < n ==> shorter[i] == stack[i];
    assert forall i: nat :: i + 3 <= n ==> (IsWorktree(shorter, i) <==> IsWorktree(stack, i));
    if k + 3 <= n {
      assert IsWorktree(shorter, k);
    }
  }

  lemma ItemAbove(stack: seq<string>, k: nat, n: nat)
    requires IsWorktree(stack, k) && forall j: nat :: j < k ==> !IsWorktree(stack, j)
    ensures ItemFrom(Above(stack, n), 0) == if k + 3 + n <= |stack| then Some(stack[k + 2]) else None
  {
    hide ItemFrom;
    ItemOfShorter(stack, k, if n <= |stack| then |stack| - n else 0);
    assert stack[..0] == [];
  }

  /** Going up leaves the worktree, which begins at `k`, exactly when that goes above the directory of the item. */
  lemma SteppingOutExactly(path: string, sep: char, k: nat, n: nat)
    requires IsSeparator(sep) && IsWorktree(Resolve([], Split(path)), k)
    requires forall j: nat :: j < k ==> !IsWorktree(Resolve([], Split(path)), j)
    ensures
      var stack := Resolve([], Split(path));
      && ItemOf(path) == Some(stack[k + 2])
      && ItemOf(Ascend(path, sep, n)) == if k + 3 + n <= |stack| then Some(stack[k + 2]) else None
  {
    hide Split, Resolve, ItemFrom, Above;
    AscendResolves(path, sep, 0);
    AscendResolves(path, sep, n);
    ItemAbove(Resolve([], Split(path)), k, 0);
    ItemAbove(Resolve([], Split(path)), k, n);
  }

  // ---- The guard ----

  /** An item's live claim: its owner, and for how long that has been silent. */
  type LiveClaim = (string, int)

  function AgentOf(owner: string): string {
    var i := Find(owner, ":");
    if i.None? then owner else owner[..i.value]
  }

  predicate IsHex(c: char) { '0' <= c <= '9' || 'a' <= c <= 'f' || 'A' <= c <= 'F' }

  /** An owner that is just a process: a number, a dash and sixteen hexadecimal digits behind the agent. */
  predicate IsProcessLocal(owner: string) {
    var i := Find(owner, ":");
    i.Some?
    && var instance := owner[i.value + 1..];
       var d := Find(instance, "-");
       d.Some? && d.value > 0 && IsNumber(instance[..d.value]) && |instance| - d.value - 1 == 16
       && forall k :: d.value < k < |instance| ==> IsHex(instance[k])
  }

  predicate CallerIsOwner(caller: string, owner: string) {
    caller == owner || (IsProcessLocal(caller) && IsProcessLocal(owner) && AgentOf(caller) == AgentOf(owner))
  }

  /** Being the same owner is an equivalence, so who may write does not depend on which process made the claim. */
  lemma OwnersAreEquivalent(a: string, b: string, c: string)
    ensures CallerIsOwner(a, a)
    ensures CallerIsOwner(a, b) <==> CallerIsOwner(b, a)
    ensures CallerIsOwner(a, b) && CallerIsOwner(b, c) ==> CallerIsOwner(a, c)
    ensures !IsProcessLocal(a) ==> (CallerIsOwner(a, b) <==> a == b)
  {
  }

  /** The claim that keeps the caller out of a path, if any. */
  function DeniedBy(path: string, caller: string, lookup: string -> seq<LiveClaim>): (claim: Option<LiveClaim>)
  {
    var item := ItemOf(path);
    if item.None? then None
    else
      var claims := lookup(item.value);
      if claims == [] || exists i :: 0 <= i < |claims| && CallerIsOwner(caller, claims[i].0) then None
      else Some(claims[0])
  }

  /** A claim on an item keeps others out of its worktree, by whatever path within they come. */
  lemma ClaimsGuardTheWholeWorktree(path: string, sep: char, relative: string, caller: string,
                                    lookup: string -> seq<LiveClaim>)
    requires IsSeparator(sep) && ItemOf(path).Some? && StaysInside(Split(relative))
    ensures DeniedBy(path + [sep] + relative, caller, lookup) == DeniedBy(path, caller, lookup)
    ensures DeniedBy(path + [sep] + relative, caller, lookup).Some?
            <==> && lookup(ItemOf(path).value) != []
                 && forall i :: 0 <= i < |lookup(ItemOf(path).value)| ==>
                      !CallerIsOwner(caller, lookup(ItemOf(path).value)[i].0)
    ensures DeniedBy(path, caller, lookup).Some? ==>
              lookup(ItemOf(path).value) != [] && DeniedBy(path, caller, lookup).value == lookup(ItemOf(path).value)[0]
  {
    DeeperKeepsTheItem(path, sep, relative);
    hide ItemOf, CallerIsOwner, StaysInside;
  }
}
