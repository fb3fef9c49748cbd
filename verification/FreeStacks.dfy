/** The stack of free slot indices both tables allocate from. */
module FreeStacks {
  import M = SlotMachine

  ghost predicate NoDuplicates(s: seq<nat>) {
    forall j, k :: 0 <= j < k < |s| ==> s[j] != s[k]
  }

  /** The free stack lists exactly the free cells, each once. */
  ghost predicate FreeStackMatches(free: seq<nat>, m: M.Machine) {
    && NoDuplicates(free)
    && (forall j :: 0 <= j < |free| ==> free[j] < |m| && m[free[j]].phase.Free?)
    && (forall i {:trigger i in free} :: 0 <= i < |m| && m[i].phase.Free? ==> i in free)
    && |free| == M.Count(m, M.FreeKind)
  }

  lemma PopFree(free: seq<nat>, m: M.Machine)
    requires FreeStackMatches(free, m) && free != []
    ensures var x := free[|free| - 1];
            FreeStackMatches(free[..|free| - 1], m[x := m[x].(phase := M.Active)])
  {
    var x := free[|free| - 1];
    var rest, r := free[..|free| - 1], m[x := m[x].(phase := M.Active)];
    M.CountUpdate(m, x, m[x].(phase := M.Active), M.FreeKind);
    forall i | 0 <= i < |r| && r[i].phase.Free? ensures i in rest {
      assert i != x && i in free;
      var j :| 0 <= j < |free| && free[j] == i;
      assert rest[j] == i;
    }
  }

  lemma PushFree(free: seq<nat>, m: M.Machine, x: nat)
    requires FreeStackMatches(free, m) && x < |m| && m[x].phase.Retiring?
    ensures FreeStackMatches(free + [x], m[x := M.Cell(m[x].lives + 1, M.Free)])
  {
    var c := M.Cell(m[x].lives + 1, M.Free);
    M.CountUpdate(m, x, c, M.FreeKind);
    var r := m[x := c];
    forall i | 0 <= i < |m| && r[i].phase.Free? ensures i in free + [x] {
      if i == x {
        assert (free + [x])[|free|] == x;
      }
    }
  }

  lemma KeepFree(free: seq<nat>, m: M.Machine, x: nat, c: M.Cell)
    requires FreeStackMatches(free, m) && x < |m| && !m[x].phase.Free? && !c.phase.Free?
    ensures FreeStackMatches(free, m[x := c])
  {
    M.CountUpdate(m, x, c, M.FreeKind);
  }
}
