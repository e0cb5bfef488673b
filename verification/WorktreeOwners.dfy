/** Where items' worktrees lie and whom their claims let in, path by path and name by name. */
module WorktreeOwners {
  import opened Wrappers
  import opened Substrings
  import opened WorktreePath

  // ---- Plain paths ----

  /** A directory's name: something other than dots, without a slash or backslash in it. */
  ghost predicate IsName(s: string) {
    s != "" && s != "." && s != ".." && forall i :: 0 <= i < |s| ==> s[i] as int != 47 && s[i] as int != 92
  }

  ghost predicate AreDigits(s: string) {
    forall i :: 0 <= i < |s| ==> 48 <= s[i] as int <= 57
  }

  ghost predicate AreNames(names: seq<string>) {
    forall i :: 0 <= i < |names| ==> IsName(names[i])
  }

  /** The path of these directories from the root. */
  function Absolute(names: seq<string>, sep: char): string {
    if names == [] then "" else Absolute(names[..|names| - 1], sep) + [sep] + names[|names| - 1]
  }

  lemma {:induction false} SplitName(s: string)
    requires forall i :: 0 <= i < |s| ==> s[i] as int != 47 && s[i] as int != 92
    ensures Split(s) == [s]
  {
    if s != "" {
      SplitName(s[..|s| - 1]);
      assert s == s[..|s| - 1] + [s[|s| - 1]];
    }
  }

  lemma {:induction false} SplitAbsolute(names: seq<string>, sep: char)
    requires AreNames(names) && sep as int in {47, 92}
    ensures Split(Absolute(names, sep)) == [""] + names
  {
    if names != [] {
      var front, last := names[..|names| - 1], names[|names| - 1];
      SplitAbsolute(front, sep);
      assert IsName(last);
      SplitName(last);
      SplitAtSeparator(Absolute(front, sep), sep, last);
      assert names == front + [last];
    }
  }

  lemma {:induction false} ResolveNames(names: seq<string>)
    requires AreNames(names)
    ensures Resolve([], [""] + names) == names
  {
    var parts := [""] + names;
    if names == [] {
      assert parts[..0] == [];
      assert Resolve([], parts[..0]) == [];
    } else {
      var front, last := names[..|names| - 1], names[|names| - 1];
      ResolveNames(front);
      assert parts[..|parts| - 1] == [""] + front;
      assert IsName(last) && names == front + [last];
    }
  }

  /** Anything below an item's directory, from the root, is in that item's worktree, and nothing else is. */
  lemma PlainPath(before: seq<string>, item: string, after: seq<string>, sep: char)
    requires AreNames(before + [".worktrees", "task", item] + after) && sep as int in {47, 92}
    requires ".worktrees" !in before
    requires AreDigits(item)
    ensures ItemOf(Absolute(before + [".worktrees", "task", item] + after, sep)) == Some(item)
  {
    var names := before + [".worktrees", "task", item] + after;
    SplitAbsolute(names, sep);
    ResolveNames(names);
    hide Split, Resolve, Absolute, ItemFrom;
    BeginsAt(before, item, after);
  }

  lemma BeginsAt(before: seq<string>, item: string, after: seq<string>)
    requires ".worktrees" !in before && AreDigits(item)
    ensures ItemFrom(before + [".worktrees", "task", item] + after, 0) == Some(item)
  {
    var names, k := before + [".worktrees", "task", item] + after, |before|;
    assert names[k] == ".worktrees" && names[k + 1] == "task" && names[k + 2] == item;
    assert forall j :: 0 <= j < k ==> names[j] == before[j];
    hide ItemFrom;
    assert IsWorktree(names, k) && forall j: nat :: j < k ==> !IsWorktree(names, j);
  }

  lemma NoWorktree(names: seq<string>, sep: char)
    requires AreNames(names) && sep as int in {47, 92}
    requires forall i :: 0 <= i < |names| - 2 && names[i] == ".worktrees" && names[i + 1] == "task" ==>
               !AreDigits(names[i + 2])
    ensures ItemOf(Absolute(names, sep)) == None
  {
    SplitAbsolute(names, sep);
    ResolveNames(names);
    hide Split, Resolve;
    assert forall i: nat :: !IsWorktree(names, i);
  }

  // ---- Owners ----

  /** Sixteen hexadecimal digits. */
  ghost predicate IsSuffix(s: string) {
    && |s| == 16
    && forall i :: 0 <= i < 16 ==> 48 <= s[i] as int <= 57 || 65 <= s[i] as int <= 70 || 97 <= s[i] as int <= 102
  }

  /** A number, a dash and a suffix behind the colon. */
  ghost predicate IsProcessInstance(instance: string) {
    var d := Find(instance, "-");
    && d.Some? && d.value > 0 && IsNumber(instance[..d.value]) && |instance| - d.value - 1 == 16
    && forall k :: d.value < k < |instance| ==> IsHex(instance[k])
  }

  lemma InstanceExactly(pid: string, suffix: string)
    requires '-' !in pid
    ensures IsProcessInstance(pid + "-" + suffix) <==> pid != "" && AreDigits(pid) && IsSuffix(suffix)
  {
    var instance := pid + "-" + suffix;
    FirstAt(pid, '-', suffix);
    assert forall k :: |pid| < k < |instance| ==> instance[k] == suffix[k - |pid| - 1];
    assert forall k :: 0 <= k < |suffix| ==> suffix[k] == instance[k + |pid| + 1];
    hide Find;
  }

  lemma ProcessHas(owner: string)
    ensures IsProcessLocal(owner)
            <==> Find(owner, ":").Some? && IsProcessInstance(owner[Find(owner, ":").value + 1..])
  {
    hide Find;
  }

  /** An owner of this kind is a process of an agent, and the agent is what stands in front of the colon. */
  lemma ProcessExactly(agent: string, pid: string, suffix: string)
    requires ':' !in agent && '-' !in pid
    ensures IsProcessLocal(agent + ":" + (pid + "-" + suffix)) <==> pid != "" && AreDigits(pid) && IsSuffix(suffix)
    ensures AgentOf(agent + ":" + (pid + "-" + suffix)) == agent
  {
    hide Find, IsProcessLocal, IsProcessInstance, AreDigits, IsSuffix;
    FirstAt(agent, ':', pid + "-" + suffix);
    InstanceExactly(pid, suffix);
    ProcessHas(agent + ":" + (pid + "-" + suffix));
  }

  /** Any other name is no process's. */
  lemma NoProcess(agent: string, instance: string)
    requires ':' !in agent && '-' !in instance
    ensures !IsProcessLocal(agent) && !IsProcessLocal(agent + ":" + instance)
    ensures AgentOf(agent) == agent && AgentOf(agent + ":" + instance) == agent
  {
    NoneAt(agent, ':');
    FirstAt(agent, ':', instance);
    NoneAt(instance, '-');
    ProcessHas(agent);
    ProcessHas(agent + ":" + instance);
    hide Find, IsProcessLocal;
  }

  /** Two processes are the same owner exactly if they are of one agent; anything else is only its own. */
  lemma SameOwnerExactly(a: string, p: string, s: string, b: string, q: string, t: string)
    requires ':' !in a && ':' !in b && p != "" && AreDigits(p) && IsSuffix(s) && q != "" && AreDigits(q) && IsSuffix(t)
    ensures CallerIsOwner(a + ":" + (p + "-" + s), b + ":" + (q + "-" + t)) <==> a == b
  {
    ProcessExactly(a, p, s);
    ProcessExactly(b, q, t);
    hide IsProcessLocal, AgentOf, AreDigits, IsSuffix;
  }

  lemma NamedIsOnlyItself(agent: string, instance: string, owner: string)
    requires ':' !in agent && '-' !in instance
    ensures CallerIsOwner(agent + ":" + instance, owner) <==> agent + ":" + instance == owner
    ensures CallerIsOwner(owner, agent + ":" + instance) <==> agent + ":" + instance == owner
  {
    NoProcess(agent, instance);
    hide IsProcessLocal, AgentOf;
  }
}
