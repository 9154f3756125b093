/**
  The message-number index of a UID store (struct num_ndx in uid_db.h): an array of
  records indexed downwards from the highest message number, so that slot i belongs
  to number posZero - i, with slots for the numbers from endValue up only.
 */
module NumIndex {
  import opened PatriciaTrie

  const UINT_MAX := 0xFFFF_FFFF

  class NumNdx {
    var records: array?<UidRecord?>
    var posZero: nat
    var endValue: nat

    /** A freshly initialised index has no slots although both bounds are equal. */
    ghost predicate Unset()
      reads this
    {
      posZero == endValue == UINT_MAX && records == null
    }

    /** The slot of the lowest number is in use. */
    ghost predicate Valid()
      reads this, records
    {
      || Unset()
      || (&& endValue <= posZero + 1 && posZero < UINT_MAX
          && (endValue <= posZero ==>
                && records != null && records.Length >= posZero + 1 - endValue
                && records[posZero - endValue] != null))
    }

    constructor ()
      ensures Valid() && Unset() && View() == map[]
    {
      records, posZero, endValue := null, UINT_MAX, UINT_MAX;
    }

    /** find_uid_by_num */
    function FindUidByNum(num: nat): (rec: UidRecord?)
      requires Valid() && num <= posZero && num < UINT_MAX
      reads this, records
    {
      if num >= endValue then records[posZero - num] else null
    }

    /** The index as a map from message numbers to records. */
    ghost function View(): (m: map<nat, UidRecord>)
      requires Valid()
      reads this, records
      ensures forall k: nat | k <= posZero && k < UINT_MAX ::
                FindUidByNum(k) == if k in m then m[k] else null
      ensures forall k | k in m :: k <= posZero && k < UINT_MAX
    {
      map k: nat | k <= posZero && k < UINT_MAX && FindUidByNum(k) != null :: FindUidByNum(k)
    }

    /** set_uid_db_num_pos_0: forgets all numbers and announces `num` as the highest. */
    method SetPos0(num: nat)
      requires num < UINT_MAX
      modifies this`posZero, this`endValue
      ensures Valid() && posZero == num && View() == map[]
    {
      posZero := num;
      endValue := num + 1;
    }

    /** set_uid_db_num: enters `rec` under `num`, growing the array downwards if needed.
        As in the source, and despite its comment, rec->num is not written. */
    method SetNum(rec: UidRecord, num: nat)
      requires Valid() && num <= posZero < UINT_MAX
      modifies this`endValue, this`records, records
      ensures Valid() && records != null && (records == old(records) || fresh(records))
      ensures posZero == old(posZero) && View() == old(View())[num := rec]
    {
      if endValue > num {
        var have := posZero + 1 - endValue;
        var want := posZero + 1 - num;
        var grown := new UidRecord?[want];
        if records != null {
          var kept := if records.Length < want then records.Length else want;
          forall i | 0 <= i < kept {
            grown[i] := records[i];
          }
        }
        forall i | have <= i < want {
          grown[i] := null;
        }
        endValue := num;
        records := grown;
      }
      records[posZero - num] := rec;
      assert forall k: nat | k <= posZero :: FindUidByNum(k) == if k == num then rec else old(FindUidByNum(k));
    }

    /** reset_uid_db_nums.  With exactly one slot it does nothing, and otherwise it leaves
        alone the `num` of the record in the last slot, that of the lowest number. */
    method ResetNums(ghost recs: set<UidRecord>)
      requires Valid() && View().Values <= recs
      modifies this`endValue, this`records, recs`num
      ensures Valid() && posZero == old(posZero) && (records == old(records) || records == null)
      ensures View() == if exists k | k in old(View()) :: k < posZero then map[] else old(View())
    {
      assert endValue < posZero < UINT_MAX ==> FindUidByNum(endValue) != null && endValue in View();
      if endValue < posZero {
        var ndx := posZero - endValue;
        while ndx > 0
          invariant ndx <= posZero - endValue
          invariant records == old(records) && endValue == old(endValue)
        {
          ndx := ndx - 1;
          var rec := records[ndx];
          if rec != null {
            assert rec == FindUidByNum(posZero - ndx);
            assert posZero - ndx in View() && View()[posZero - ndx] in View().Values;
            rec.num := 0;
          }
        }
        endValue := posZero + 1;
        records := null;
      }
    }
  }
}
