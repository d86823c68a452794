/** The listener table a Controller keeps (dash.js `Listeners`): event name to
    the listeners registered for it, in registration order. Registration is
    not deduplicated, removal takes out the first match only, and an event's
    entry disappears once its list is empty. This module holds the table as a
    value and what the registry operations do to it. */
module Registry {
  import Arrays

  type Table<L> = map<string, seq<L>>

  /** The list registered for `name`; an absent entry reads as no listeners. */
  function Entry<L>(m: Table<L>, name: string): seq<L>
  {
    if name in m then m[name] else []
  }

  /** How many times `l` is registered for `name`. */
  ghost function Count<L>(m: Table<L>, name: string, l: L): nat
  {
    multiset(Entry(m, name))[l]
  }

  /** No entry holds an empty list. */
  ghost predicate NoEmptyLists<L>(m: Table<L>)
  {
    forall name :: name in m ==> m[name] != []
  }

  /** Table after `addListener(name, l)`: `l` appended, the list created if absent. */
  function Added<L>(m: Table<L>, name: string, l: L): Table<L>
  {
    m[name := Entry(m, name) + [l]]
  }

  /** Table after `removeListener(name, l)`: the first `l` spliced out and the
      entry deleted when its list is left empty; no entry, no change. */
  function Removed<L(==)>(m: Table<L>, name: string, l: L): Table<L>
  {
    if name !in m then m
    else
      var rest := Arrays.RemoveFirst(m[name], l);
      if rest == [] then m - {name} else m[name := rest]
  }

  /** `addListener(name, l)` issued `k` times. */
  function AddedTimes<L>(m: Table<L>, name: string, l: L, k: nat): Table<L>
  {
    if k == 0 then m else Added(AddedTimes(m, name, l, k - 1), name, l)
  }

  /** `removeListener(name, l)` issued `k` times. */
  function RemovedTimes<L(==)>(m: Table<L>, name: string, l: L, k: nat): Table<L>
  {
    if k == 0 then m else Removed(RemovedTimes(m, name, l, k - 1), name, l)
  }

  /** Adding counts one more registration of `l` for `name` and touches no
      other count; the table keeps no empty list. */
  lemma AddedCounts<L>(m: Table<L>, name: string, l: L, name': string, l': L)
    ensures Count(Added(m, name, l), name', l') ==
            Count(m, name', l') + (if name' == name && l' == l then 1 else 0)
    ensures NoEmptyLists(m) ==> NoEmptyLists(Added(m, name, l))
  {
  }

  /** Removing takes back exactly one registration of `l` for `name` when
      there is one and none otherwise, and touches no other count. */
  lemma RemovedCounts<L>(m: Table<L>, name: string, l: L, name': string, l': L)
    ensures Count(Removed(m, name, l), name', l') ==
            if name' == name && l' == l && Count(m, name, l) > 0
            then Count(m, name', l') - 1 else Count(m, name', l')
    ensures |Entry(Removed(m, name, l), name)| ==
            if Count(m, name, l) > 0 then |Entry(m, name)| - 1 else |Entry(m, name)|
  {
    var r := Removed(m, name, l);
    if name in m {
      var rest := Arrays.RemoveFirst(m[name], l);
      Arrays.RemoveFirstCounts(m[name], l);
      assert Entry(r, name) == rest;
      if name' != name {
        assert Entry(r, name') == Entry(m, name');
      }
    } else {
      assert r == m;
    }
  }

  /** The entry is deleted exactly when the list held nothing but `l` (or was
      already empty), so a table without empty lists keeps none. */
  lemma RemovedDeletesEmptied<L>(m: Table<L>, name: string, l: L)
    ensures name in m && name !in Removed(m, name, l) <==>
            name in m && (m[name] == [] || m[name] == [l])
    ensures NoEmptyLists(m) ==> NoEmptyLists(Removed(m, name, l))
  {
    if name in m {
      var rest := Arrays.RemoveFirst(m[name], l);
      Arrays.RemoveFirstCounts(m[name], l);
      if m[name] == [l] {
        assert rest == [];
      }
      if rest == [] && m[name] != [] {
        assert |m[name]| == 1;
        assert m[name] == [m[name][0]];
      }
    }
  }

  /** With no empty lists kept, an event has an entry exactly when some
      listener is registered for it. */
  lemma EntryIffRegistered<L>(m: Table<L>, name: string)
    requires NoEmptyLists(m)
    ensures name in m <==> exists l :: Count(m, name, l) > 0
  {
    if name in m {
      assert Count(m, name, m[name][0]) > 0;
    }
  }

  /** A listener not yet registered for `name`, added `k` times, stays
      registered through `k - 1` removals and the `k`th removal restores the
      table exactly: it has to be removed as many times as it was added. */
  lemma AddThenRemoveTimes<L>(m: Table<L>, name: string, l: L, k: nat, j: nat)
    requires NoEmptyLists(m) && Count(m, name, l) == 0 && j <= k
    ensures Count(RemovedTimes(AddedTimes(m, name, l, k), name, l, j), name, l) == k - j
    ensures RemovedTimes(AddedTimes(m, name, l, k), name, l, k) == m
  {
    RemovedTimesCount(m, name, l, k, j);
    RemovedTimesRestores(m, name, l, k);
  }

  lemma RemovedTimesCount<L>(m: Table<L>, name: string, l: L, k: nat, j: nat)
    requires NoEmptyLists(m) && Count(m, name, l) == 0 && j <= k
    ensures Count(RemovedTimes(AddedTimes(m, name, l, k), name, l, j), name, l) == k - j
  {
    RemovedTimesShape(m, name, l, k, j);
    AddedThenRemovedCount(m, name, l, k, j);
  }

  lemma RemovedTimesRestores<L>(m: Table<L>, name: string, l: L, k: nat)
    requires NoEmptyLists(m) && Count(m, name, l) == 0
    ensures RemovedTimes(AddedTimes(m, name, l, k), name, l, k) == m
  {
    RemovedTimesShape(m, name, l, k, k);
    var s := Entry(m, name);
    if k > 0 {
      if s == [] {
        assert name !in m;
        assert m - {name} == m;
      } else {
        assert s + Arrays.Repeat(l, 0) == s;
        assert m[name := s] == m;
      }
    }
  }

  /** The table after `k` additions of `l` and then `j` removals, in closed
      form: the old list followed by `k - j` copies, the entry dropped when
      that leaves it empty. */
  function AddedThenRemoved<L>(m: Table<L>, name: string, l: L, k: nat, j: nat): Table<L>
    requires j <= k
  {
    if k == 0 then m
    else if Entry(m, name) == [] && j == k then m - {name}
    else m[name := Entry(m, name) + Arrays.Repeat(l, k - j)]
  }

  lemma AddedThenRemovedCount<L>(m: Table<L>, name: string, l: L, k: nat, j: nat)
    requires Count(m, name, l) == 0 && j <= k
    ensures Count(AddedThenRemoved(m, name, l, k, j), name, l) == k - j
  {
    var s := Entry(m, name);
    var r := AddedThenRemoved(m, name, l, k, j);
    if k == 0 {
      assert r == m;
    } else if s == [] && j == k {
      assert name !in r;
    } else {
      assert Entry(r, name) == s + Arrays.Repeat(l, k - j);
      CountRepeat(s, l, k - j);
    }
  }

  lemma {:induction false} AddedTimesShape<L>(m: Table<L>, name: string, l: L, k: nat)
    ensures AddedTimes(m, name, l, k) ==
            if k == 0 then m else m[name := Entry(m, name) + Arrays.Repeat(l, k)]
  {
    if k > 0 {
      AddedTimesShape(m, name, l, k - 1);
      var s := Entry(m, name);
      assert Arrays.Repeat(l, k) == Arrays.Repeat(l, k - 1) + [l];
      assert s + Arrays.Repeat(l, k) == (s + Arrays.Repeat(l, k - 1)) + [l];
      if k == 1 {
        assert Arrays.Repeat(l, 1) == [l];
        assert AddedTimes(m, name, l, 0) == m;
        assert AddedTimes(m, name, l, 1) == m[name := s + [l]];
      } else {
        assert Entry(AddedTimes(m, name, l, k - 1), name) == s + Arrays.Repeat(l, k - 1);
      }
    }
  }

  lemma {:induction false} RemovedTimesShape<L>(m: Table<L>, name: string, l: L, k: nat, j: nat)
    requires NoEmptyLists(m) && Count(m, name, l) == 0 && j <= k
    ensures RemovedTimes(AddedTimes(m, name, l, k), name, l, j) == AddedThenRemoved(m, name, l, k, j)
  {
    AddedTimesShape(m, name, l, k);
    if j > 0 {
      RemovedTimesShape(m, name, l, k, j - 1);
      AddedThenRemovedStep(m, name, l, k, j);
    }
  }

  /** One more removal takes one more copy off the closed form. */
  lemma AddedThenRemovedStep<L>(m: Table<L>, name: string, l: L, k: nat, j: nat)
    requires Count(m, name, l) == 0 && 0 < j <= k
    ensures Removed(AddedThenRemoved(m, name, l, k, j - 1), name, l) == AddedThenRemoved(m, name, l, k, j)
  {
    var s := Entry(m, name);
    var before := m[name := s + Arrays.Repeat(l, k - j + 1)];
    assert AddedThenRemoved(m, name, l, k, j - 1) == before;
    assert l !in s by {
      assert multiset(s)[l] == 0;
    }
    RemovedStep(before, name, s, l, k - j);
    var rest := s + Arrays.Repeat(l, k - j);
    if rest == [] {
      assert s == [] && j == k;
      assert before - {name} == m - {name};
    } else {
      assert before[name := rest] == m[name := rest];
    }
  }

  /** One removal from a list made of an `l`-free prefix and `r + 1` copies
      of `l` takes one copy off. */
  lemma RemovedStep<L>(t: Table<L>, name: string, s: seq<L>, l: L, r: nat)
    requires l !in s && name in t && t[name] == s + Arrays.Repeat(l, r + 1)
    ensures var rest := s + Arrays.Repeat(l, r);
            Removed(t, name, l) == if rest == [] then t - {name} else t[name := rest]
  {
    Arrays.RemoveFirstAfterPrefix(s, Arrays.Repeat(l, r + 1), l);
    assert Arrays.Repeat(l, r + 1) == [l] + Arrays.Repeat(l, r);
  }

  lemma {:induction false} CountRepeat<L>(s: seq<L>, l: L, k: nat)
    requires multiset(s)[l] == 0
    ensures multiset(s + Arrays.Repeat(l, k))[l] == k
  {
    if k > 0 {
      CountRepeat(s, l, k - 1);
      assert s + Arrays.Repeat(l, k) == (s + Arrays.Repeat(l, k - 1)) + [l];
    }
  }
}
