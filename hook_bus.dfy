/** The part of WordPress's hook table the markup system relies on: per hook
    name, a list of registrations kept in ascending priority, registrations
    of equal priority in the order they were added. `add_filter` and
    `add_action` insert into it, `remove_all_filters($name, $priority)`
    drops every registration of one priority. The callbacks are left
    abstract here; the markup module fixes what they are. */
module HookBus {

  datatype Registration<C> = Registration(priority: int, callback: C)

  type Table<C> = map<string, seq<Registration<C>>>

  /** The registrations under one hook name; none when it was never used. */
  function Chain<C>(t: Table<C>, name: string): seq<Registration<C>>
  {
    if name in t then t[name] else []
  }

  predicate Ordered<C>(regs: seq<Registration<C>>)
  {
    forall i, j :: 0 <= i < j < |regs| ==> regs[i].priority <= regs[j].priority
  }

  /** Where a new registration of priority `p` goes: after every registration
      whose priority is not greater, before the first greater one. */
  function InsertionPoint<C>(regs: seq<Registration<C>>, p: int): (k: nat)
    ensures k <= |regs|
    ensures forall i :: k <= i < |regs| ==> regs[i].priority > p
    ensures Ordered(regs) ==> forall i :: 0 <= i < k ==> regs[i].priority <= p
  {
    if regs == [] || regs[|regs| - 1].priority <= p then |regs|
    else InsertionPoint(regs[..|regs| - 1], p)
  }

  function Insert<C>(regs: seq<Registration<C>>, r: Registration<C>): seq<Registration<C>>
  {
    var k := InsertionPoint(regs, r.priority);
    regs[..k] + [r] + regs[k..]
  }

  /** Inserting keeps the chain in priority order. */
  lemma InsertOrdered<C>(regs: seq<Registration<C>>, r: Registration<C>)
    requires Ordered(regs)
    ensures Ordered(Insert(regs, r))
  {
    var k := InsertionPoint(regs, r.priority);
    var res := Insert(regs, r);
    forall i, j | 0 <= i < j < |res| ensures res[i].priority <= res[j].priority {
      if j < k {
        assert res[i] == regs[i] && res[j] == regs[j];
      } else if j == k {
        assert res[j] == r && res[i] == regs[i];
      } else if i < k {
        assert res[i] == regs[i] && res[j] == regs[j - 1];
      } else if i == k {
        assert res[i] == r && res[j] == regs[j - 1];
      } else {
        assert res[i] == regs[i - 1] && res[j] == regs[j - 1];
      }
    }
  }

  /** No registration in the chain has a priority above `p`. */
  predicate AllAtMost<C>(regs: seq<Registration<C>>, p: int)
  {
    forall i :: 0 <= i < |regs| ==> regs[i].priority <= p
  }

  /** A registration whose priority is at least every existing one runs last. */
  lemma InsertAtEnd<C>(regs: seq<Registration<C>>, r: Registration<C>)
    requires AllAtMost(regs, r.priority)
    ensures Insert(regs, r) == regs + [r]
  {
    var k := InsertionPoint(regs, r.priority);
    assert k == |regs|;
    assert regs[..k] == regs && regs[k..] == [];
  }

  /** The registrations of every priority other than `p`, in order. */
  function WithoutPriority<C>(regs: seq<Registration<C>>, p: int): (res: seq<Registration<C>>)
    ensures forall i :: 0 <= i < |res| ==> res[i].priority != p
  {
    if regs == [] then []
    else (if regs[0].priority == p then [] else [regs[0]]) + WithoutPriority(regs[1..], p)
  }

  lemma {:induction false} WithoutPriorityAppend<C>(a: seq<Registration<C>>, b: seq<Registration<C>>, p: int)
    ensures WithoutPriority(a + b, p) == WithoutPriority(a, p) + WithoutPriority(b, p)
  {
    if a == [] {
      assert a + b == b;
    } else {
      assert (a + b)[1..] == a[1..] + b;
      WithoutPriorityAppend(a[1..], b, p);
    }
  }

  lemma {:induction false} WithoutAbsentPriority<C>(regs: seq<Registration<C>>, p: int)
    requires forall i :: 0 <= i < |regs| ==> regs[i].priority != p
    ensures WithoutPriority(regs, p) == regs
  {
    if regs != [] {
      WithoutAbsentPriority(regs[1..], p);
    }
  }

  /** Removing a priority also removes a registration just added at it. */
  lemma WithoutPriorityInsert<C>(regs: seq<Registration<C>>, p: int, c: C)
    ensures WithoutPriority(Insert(regs, Registration(p, c)), p) == WithoutPriority(regs, p)
  {
    var k := InsertionPoint(regs, p);
    var r := Registration(p, c);
    WithoutPriorityAppend(regs[..k] + [r], regs[k..], p);
    WithoutPriorityAppend(regs[..k], [r], p);
    WithoutPriorityAppend(regs[..k], regs[k..], p);
    assert regs[..k] + regs[k..] == regs;
    assert WithoutPriority([r], p) == [] by {
      assert [r][1..] == [];
    }
  }

  /** `add_filter` / `add_action`. */
  function AddHook<C>(t: Table<C>, name: string, callback: C, priority: int): Table<C>
  {
    t[name := Insert(Chain(t, name), Registration(priority, callback))]
  }

  /** `remove_all_filters($name, $priority)`. */
  function RemoveAllHooks<C>(t: Table<C>, name: string, priority: int): Table<C>
  {
    t[name := WithoutPriority(Chain(t, name), priority)]
  }

  /** Removing every registration of a priority undoes an addition at that
      priority, on the hook it was added to, whenever that hook held nothing
      at that priority before; every other hook is untouched throughout. */
  lemma RemoveAllUndoesAdd<C>(t: Table<C>, name: string, callback: C, priority: int, other: string)
    requires forall i :: 0 <= i < |Chain(t, name)| ==> Chain(t, name)[i].priority != priority
    ensures Chain(RemoveAllHooks(AddHook(t, name, callback, priority), name, priority), name) == Chain(t, name)
    ensures other != name ==> Chain(AddHook(t, name, callback, priority), other) == Chain(t, other)
    ensures other != name ==> Chain(RemoveAllHooks(t, name, priority), other) == Chain(t, other)
  {
    WithoutPriorityInsert(Chain(t, name), priority, callback);
    WithoutAbsentPriority(Chain(t, name), priority);
  }
}
