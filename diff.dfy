/**
 * The comparison of records shown when the page holds more than one: the
 * keys of the first record whose value every record shares (the common
 * fields, with that value) and the keys on which some record differs.
 */
module Diff {
  import opened Wrappers
  import opened Seqs
  import opened Objects
  import opened Subjects

  /** `subjects.every(subj => subj[key] === subjects[0][key])`, absent values included. */
  predicate IsCommon(subjects: seq<Obj>, k: string)
    requires |subjects| > 0
  {
    forall i :: 0 <= i < |subjects| ==> Get(subjects[i], k) == Get(subjects[0], k)
  }

  /** The keys of `keys` that every record shares, in order. */
  function CommonKeys(subjects: seq<Obj>, keys: seq<string>): seq<string>
    requires |subjects| > 0
  {
    if keys == [] then []
    else
      var k := keys[|keys| - 1];
      CommonKeys(subjects, keys[..|keys| - 1]) + (if IsCommon(subjects, k) then [k] else [])
  }

  /** The keys of `keys` on which some record differs, in order. */
  function DifferingKeys(subjects: seq<Obj>, keys: seq<string>): seq<string>
    requires |subjects| > 0
  {
    if keys == [] then []
    else
      var k := keys[|keys| - 1];
      DifferingKeys(subjects, keys[..|keys| - 1]) + (if IsCommon(subjects, k) then [] else [k])
  }

  /** The object the common-fields loop builds over `keys`. */
  function CommonEntries(subjects: seq<Obj>, keys: seq<string>): Obj
    requires |subjects| > 0
  {
    if keys == [] then Empty
    else
      var k := keys[|keys| - 1];
      var common := CommonEntries(subjects, keys[..|keys| - 1]);
      if IsCommon(subjects, k) && k in subjects[0].vals then Set(common, k, subjects[0].vals[k]) else common
  }

  /**
   * `getCommonFields`: nothing for an empty page; otherwise, walking the
   * first record's keys in order, each key every record shares is copied
   * with the first record's value.
   */
  method GetCommonFields(subjects: seq<Obj>) returns (common: Obj)
    ensures |subjects| == 0 ==> common == Empty
    ensures |subjects| > 0 ==> common == CommonEntries(subjects, subjects[0].keys)
  {
    common := Empty;
    if |subjects| == 0 {
      return;
    }
    var keys := subjects[0].keys;
    Members(subjects[0]);
    var i := 0;
    while i < |keys|
      invariant 0 <= i <= |keys|
      invariant common == CommonEntries(subjects, keys[..i])
    {
      var key := keys[i];
      assert keys[..i + 1][..i] == keys[..i];
      var firstVal := subjects[0].vals[key];
      if IsCommon(subjects, key) {
        common := Set(common, key, firstVal);
      }
      i := i + 1;
    }
    assert keys[..i] == keys;
  }

  /** `getDifferingFields`: the first record's keys, in order, on which some record differs. */
  function GetDifferingFields(subjects: seq<Obj>): (r: seq<string>)
    ensures |subjects| == 0 ==> r == []
    ensures |subjects| > 0 ==> forall k :: k in r <==> k in subjects[0].keys && !IsCommon(subjects, k)
    ensures |subjects| > 0 ==> IsSubsequence(r, subjects[0].keys)
  {
    if |subjects| == 0 then []
    else
      DifferingKeysMembers(subjects, subjects[0].keys);
      DifferingKeysOrdered(subjects, subjects[0].keys);
      DifferingKeys(subjects, subjects[0].keys)
  }

  /** The common keys are exactly the shared ones. */
  lemma {:induction false} CommonKeysMembers(subjects: seq<Obj>, keys: seq<string>)
    requires |subjects| > 0
    ensures forall k :: k in CommonKeys(subjects, keys) <==> k in keys && IsCommon(subjects, k)
  {
    if keys != [] {
      CommonKeysMembers(subjects, keys[..|keys| - 1]);
      assert keys == keys[..|keys| - 1] + [keys[|keys| - 1]];
    }
  }

  /** The differing keys are exactly the others. */
  lemma {:induction false} DifferingKeysMembers(subjects: seq<Obj>, keys: seq<string>)
    requires |subjects| > 0
    ensures forall k :: k in DifferingKeys(subjects, keys) <==> k in keys && !IsCommon(subjects, k)
  {
    if keys != [] {
      DifferingKeysMembers(subjects, keys[..|keys| - 1]);
      assert keys == keys[..|keys| - 1] + [keys[|keys| - 1]];
    }
  }

  /** The common keys keep the order of `keys`. */
  lemma {:induction false} CommonKeysOrdered(subjects: seq<Obj>, keys: seq<string>)
    requires |subjects| > 0
    ensures IsSubsequence(CommonKeys(subjects, keys), keys)
  {
    if keys != [] {
      var front, k := keys[..|keys| - 1], keys[|keys| - 1];
      CommonKeysOrdered(subjects, front);
      assert keys == front + [k];
      var c := CommonKeys(subjects, front);
      if IsCommon(subjects, k) {
        assert CommonKeys(subjects, keys) == c + [k];
        assert (c + [k])[..|c|] == c;
      } else {
        assert CommonKeys(subjects, keys) == c;
        SubsequenceSnoc(c, front, k);
      }
    }
  }

  /** The differing keys keep the order of `keys`. */
  lemma {:induction false} DifferingKeysOrdered(subjects: seq<Obj>, keys: seq<string>)
    requires |subjects| > 0
    ensures IsSubsequence(DifferingKeys(subjects, keys), keys)
  {
    if keys != [] {
      var front, k := keys[..|keys| - 1], keys[|keys| - 1];
      DifferingKeysOrdered(subjects, front);
      assert keys == front + [k];
      var d := DifferingKeys(subjects, front);
      if IsCommon(subjects, k) {
        assert DifferingKeys(subjects, keys) == d;
        SubsequenceSnoc(d, front, k);
      } else {
        assert DifferingKeys(subjects, keys) == d + [k];
        assert (d + [k])[..|d|] == d;
      }
    }
  }

  /** Between them the two lists hold each of `keys` once. */
  lemma {:induction false} SplitCounts(subjects: seq<Obj>, keys: seq<string>)
    requires |subjects| > 0
    ensures |CommonKeys(subjects, keys)| + |DifferingKeys(subjects, keys)| == |keys|
  {
    if keys != [] {
      SplitCounts(subjects, keys[..|keys| - 1]);
    }
  }

  /**
   * Over keys without repetition that the first record holds, the built
   * object lists the shared keys in order, each with the first record's
   * value, and nothing else.
   */
  lemma {:induction false} CommonEntriesSpec(subjects: seq<Obj>, keys: seq<string>)
    requires |subjects| > 0 && Distinct(keys)
    requires forall k :: k in keys ==> k in subjects[0].vals
    ensures CommonEntries(subjects, keys).keys == CommonKeys(subjects, keys)
    ensures forall k :: Get(CommonEntries(subjects, keys), k)
                     == if k in keys && IsCommon(subjects, k) then Get(subjects[0], k) else None
  {
    if keys != [] {
      var front, k := keys[..|keys| - 1], keys[|keys| - 1];
      assert keys == front + [k];
      assert Distinct(front) by {
        forall i, j | 0 <= i < j < |front| ensures front[i] != front[j] {
          assert keys[i] == front[i] && keys[j] == front[j];
        }
      }
      assert k !in front by {
        forall j | 0 <= j < |front| ensures front[j] != k {
          assert keys[j] == front[j];
        }
      }
      CommonEntriesSpec(subjects, front);
      CommonKeysMembers(subjects, front);
      if IsCommon(subjects, k) {
        AbsentKey(CommonEntries(subjects, front), k);
      }
    }
  }

  /**
   * On a non-empty page, a key of the first record is common, with the
   * first record's value, exactly when every record holds that same value;
   * the common keys come in the first record's order.
   */
  lemma CommonFieldsSpec(subjects: seq<Obj>)
    requires |subjects| > 0
    ensures CommonEntries(subjects, subjects[0].keys).keys == CommonKeys(subjects, subjects[0].keys)
    ensures forall k :: k in subjects[0].keys ==>
      (Get(CommonEntries(subjects, subjects[0].keys), k) == Get(subjects[0], k) <==> IsCommon(subjects, k))
    ensures forall k :: k !in subjects[0].keys ==> Get(CommonEntries(subjects, subjects[0].keys), k) == None
  {
    Members(subjects[0]);
    CommonEntriesSpec(subjects, subjects[0].keys);
  }

  /**
   * The common and differing keys split the first record's keys: no key is
   * in both, every key is in one, and the counts add up.
   */
  lemma CommonAndDifferingPartition(subjects: seq<Obj>)
    requires |subjects| > 0
    ensures var common := CommonEntries(subjects, subjects[0].keys).keys;
      var differing := GetDifferingFields(subjects);
      && (forall k :: k in common ==> k !in differing)
      && (forall k :: k in subjects[0].keys <==> k in common || k in differing)
      && |common| + |differing| == |subjects[0].keys|
  {
    CommonFieldsSpec(subjects);
    CommonKeysMembers(subjects, subjects[0].keys);
    DifferingKeysMembers(subjects, subjects[0].keys);
    SplitCounts(subjects, subjects[0].keys);
  }

  /** On a page whose records are all equal, every field is common and none differs. */
  lemma IdenticalRecords(subjects: seq<Obj>)
    requires |subjects| > 0 && forall i :: 0 <= i < |subjects| ==> subjects[i] == subjects[0]
    ensures GetDifferingFields(subjects) == []
    ensures CommonEntries(subjects, subjects[0].keys) == subjects[0]
  {
    var first := subjects[0];
    CommonKeysAll(subjects, first.keys);
    SplitCounts(subjects, first.keys);
    CommonFieldsSpec(subjects);
    var common := CommonEntries(subjects, first.keys);
    Members(common);
    Members(first);
    assert common.vals == first.vals by {
      forall k | k in first.vals ensures k in common.vals && common.vals[k] == first.vals[k] {
        assert Get(common, k) == Get(first, k);
      }
    }
  }

  lemma {:induction false} CommonKeysAll(subjects: seq<Obj>, keys: seq<string>)
    requires |subjects| > 0 && forall k :: k in keys ==> IsCommon(subjects, k)
    ensures CommonKeys(subjects, keys) == keys
  {
    if keys != [] {
      var front := keys[..|keys| - 1];
      assert forall k :: k in front ==> k in keys;
      CommonKeysAll(subjects, front);
      assert keys[|keys| - 1] in keys;
      assert keys == front + [keys[|keys| - 1]];
    }
  }

  /** Two records that disagree on `x` ("1" and "2"): `x` differs and nothing is common. */
  lemma TwoRecordsDisagree()
    ensures var a := Set(Empty, "x", "1");
      var b := Set(Empty, "x", "2");
      GetDifferingFields([a, b]) == ["x"] && CommonEntries([a, b], a.keys) == Empty
  {
    var a := Set(Empty, "x", "1");
    var b := Set(Empty, "x", "2");
    assert a.keys == ["x"];
    assert !IsCommon([a, b], "x") by {
      assert Get([a, b][1], "x") != Get([a, b][0], "x");
    }
    assert a.keys[..0] == [];
    assert DifferingKeys([a, b], a.keys) == DifferingKeys([a, b], []) + ["x"];
    assert CommonEntries([a, b], a.keys) == CommonEntries([a, b], []);
  }

  /** After a change made to every record, the changed key is common to all of them. */
  lemma BroadcastMakesCommon(subjects: seq<Obj>, fieldKey: string, value: string)
    requires |subjects| > 0
    ensures var r := HandleChange(subjects, fieldKey, value, None);
      IsCommon(r, fieldKey) && fieldKey !in GetDifferingFields(r)
  {
    var r := HandleChange(subjects, fieldKey, value, None);
    DifferingKeysMembers(r, r[0].keys);
  }
}
