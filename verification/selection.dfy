/**
 * The selection toggle shared by the AI guide view
 * (components/ai-guide/ai-guide-view.tsx), the library and the guide page:
 * `prev.includes(id) ? prev.filter(x => x !== id) : [...prev, id]`.
 */
module Selection {

  /** `ids.filter(x => x !== id)`. */
  function Without(ids: seq<string>, id: string): (r: seq<string>)
    ensures |r| <= |ids|
    ensures id !in r
    ensures forall x :: x in r <==> x in ids && x != id
    ensures id in ids ==> |r| < |ids|
  {
    if |ids| == 0 then []
    else
      assert id in ids && ids[0] != id ==> id in ids[1..];
      (if ids[0] == id then [] else [ids[0]]) + Without(ids[1..], id)
  }

  /** Selecting an absent id appends it; selecting a present one removes every copy of it. */
  function Toggle(ids: seq<string>, id: string): (r: seq<string>)
    ensures id in r <==> id !in ids
    ensures forall x :: x != id ==> (x in r <==> x in ids)
    ensures id !in ids ==> r == ids + [id]
    ensures id in ids ==> |r| < |ids|
  {
    if id in ids then Without(ids, id) else ids + [id]
  }

  predicate NoDuplicates(ids: seq<string>) {
    forall i, j :: 0 <= i < j < |ids| ==> ids[i] != ids[j]
  }

  /** Removing an id that is not there changes nothing. */
  lemma {:induction false} WithoutAbsent(ids: seq<string>, id: string)
    requires id !in ids
    ensures Without(ids, id) == ids
  {
    if |ids| > 0 {
      WithoutAbsent(ids[1..], id);
      assert ids == [ids[0]] + ids[1..];
    }
  }

  lemma {:induction false} WithoutAppend(a: seq<string>, b: seq<string>, id: string)
    ensures Without(a + b, id) == Without(a, id) + Without(b, id)
    decreases |a|
  {
    if |a| == 0 {
      assert a + b == b;
    } else {
      assert (a + b)[1..] == a[1..] + b;
      WithoutAppend(a[1..], b, id);
    }
  }

  /** Toggling an absent id twice gives back the list as it was. */
  lemma ToggleTwiceRestores(ids: seq<string>, id: string)
    requires id !in ids
    ensures Toggle(Toggle(ids, id), id) == ids
  {
    WithoutAppend(ids, [id], id);
    WithoutAbsent(ids, id);
    assert Without([id], id) == [] by { assert [id][1..] == []; }
  }

  /** The other ids keep their relative order: with the toggled id taken out, the lists agree. */
  lemma ToggleKeepsOrder(ids: seq<string>, id: string)
    ensures Without(Toggle(ids, id), id) == Without(ids, id)
  {
    if id in ids {
      WithoutTwice(ids, id);
    } else {
      WithoutAppend(ids, [id], id);
      assert Without([id], id) == [] by { assert [id][1..] == []; }
    }
  }

  lemma WithoutTwice(ids: seq<string>, id: string)
    ensures Without(Without(ids, id), id) == Without(ids, id)
  {
    WithoutAbsent(Without(ids, id), id);
  }

  /** A list without duplicates stays without duplicates. */
  lemma ToggleKeepsDistinct(ids: seq<string>, id: string)
    requires NoDuplicates(ids)
    ensures NoDuplicates(Toggle(ids, id))
  {
    if id in ids {
      WithoutKeepsDistinct(ids, id);
    }
  }

  lemma {:induction false} WithoutKeepsDistinct(ids: seq<string>, id: string)
    requires NoDuplicates(ids)
    ensures NoDuplicates(Without(ids, id))
    decreases |ids|
  {
    if |ids| > 0 {
      assert NoDuplicates(ids[1..]) by {
        forall i, j | 0 <= i < j < |ids| - 1 ensures ids[1..][i] != ids[1..][j] {
          assert ids[i + 1] != ids[j + 1];
        }
      }
      WithoutKeepsDistinct(ids[1..], id);
      var rest := Without(ids[1..], id);
      if ids[0] != id {
        assert ids[0] !in ids[1..] by {
          forall k | 0 <= k < |ids| - 1 ensures ids[1..][k] != ids[0] { assert ids[k + 1] != ids[0]; }
        }
        assert ids[0] !in rest;
        var r := [ids[0]] + rest;
        forall i, j | 0 <= i < j < |r| ensures r[i] != r[j] {
          if i == 0 { assert r[j] in rest; } else { assert r[i] == rest[i - 1] && r[j] == rest[j - 1]; }
        }
      }
    }
  }
}
