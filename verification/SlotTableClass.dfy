/** The slot tables changed in place. */
module SlotTableClass {
  import opened Machine
  import Tables = SlotTables

  class SlotTable {
    var slots: array<Tables.Slot>
    var cnt: nat

    ghost function State(): (t: Tables.Table)
      reads this, slots
    {
      Tables.Table(slots[..], cnt)
    }

    constructor ()
      ensures State() == Tables.EMPTY && fresh(slots)
    {
      slots := new Tables.Slot[0];
      cnt := 0;
    }

    /** realloc to a larger table. */
    method Grow(m: nat)
      requires m >= slots.Length
      modifies this`slots
      ensures fresh(slots) && cnt == old(cnt)
      ensures slots[..] == old(slots[..]) + Repeat(m - old(slots.Length), Tables.Junk)
    {
      var n := slots.Length;
      var was := slots;
      slots := new Tables.Slot[m](i requires 0 <= i < m reads was => if i < was.Length then was[i] else Tables.Junk);
      assert slots[..] == was[..] + Repeat(m - n, Tables.Junk);
    }

    method Add(e: Option<Tables.Entry>) returns (r: Outcome<(int, bool)>)
      modifies this, slots
      ensures slots == old(slots) || fresh(slots)
      ensures match Tables.Add(old(State()), e)
              case Done((t, i, grew)) => r == Done((i, grew)) && State() == t
              case Exit => r == Exit
              case Fault => r == Fault
    {
      if e.None? {
        return Done((-1, false));
      }
      if slots.Length == 0 {
        if cnt >= Tables.ALLOC_QUANTUM {
          return Fault;
        }
        slots := new Tables.Slot[Tables.ALLOC_QUANTUM](_ => Tables.Null);
        assert slots[..] == Repeat(Tables.ALLOC_QUANTUM, Tables.Null);
        slots[cnt] := Tables.Live(e.value);
        cnt := cnt + 1;
        return Done((0, false));
      } else if cnt == slots.Length {
        Grow(slots.Length + Tables.ALLOC_QUANTUM);
        slots[cnt] := Tables.Live(e.value);
        cnt := cnt + 1;
        return Done((cnt - 1, true));
      } else if cnt > slots.Length {
        return Fault;
      }
      for i := 0 to cnt
        invariant State() == old(State()) && slots == old(slots) && cnt == old(cnt) <= slots.Length
        invariant Tables.FirstNull(slots[..], 0, cnt) == Tables.FirstNull(slots[..], i, cnt)
      {
        if slots[i].Junk? {
          return Fault;
        }
        if slots[i].Null? {
          slots[i] := Tables.Live(e.value);
          cnt := cnt + 1;
          return Done((i, false));
        }
      }
      slots[cnt] := Tables.Live(e.value);
      cnt := cnt + 1;
      return Done((cnt - 1, false));
    }

    method Remove(tag: string) returns (r: Outcome<int>)
      modifies this`cnt, slots
      ensures match Tables.Remove(old(State()), tag)
              case Done((t, i)) => r == Done(i) && State() == t
              case Exit => r == Exit
              case Fault => r == Fault
    {
      for i := 0 to slots.Length
        invariant State() == old(State())
        invariant Tables.FindTag(slots[..], tag, 0) == Tables.FindTag(slots[..], tag, i)
      {
        if slots[i].Junk? {
          return Fault;
        }
        if slots[i].Live? && slots[i].entry.tag == tag {
          if cnt == 0 {
            return Fault;
          }
          slots[i] := Tables.Null;
          cnt := cnt - 1;
          return Done(0);
        }
      }
      return Done(-1);
    }
  }
}
