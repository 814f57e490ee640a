/** The model constants of app/config.py that the prediction pipeline depends on.
    They must match the values used when the network was trained. */
module Config {

  /** Vocabulary bound of the tokenizer and of the embedding layer. */
  const MaxVocab: nat := 30000

  /** Length of every encoded token sequence. */
  const MaxLen: nat := 80

  /** The predicted metrics, in the order of the network's outputs. */
  const Targets: seq<string> := ["likes", "comments", "shares", "clicks", "timing_quality_score"]

  /** Platform name to category id; the ids follow the alphabetical order of the names
      (the order pandas assigned its category codes in at training time). */
  const PlatformMap: map<string, int> :=
    map["Facebook" := 0, "Instagram" := 1, "TikTok" := 2, "Twitter" := 3, "YouTube" := 4]

  /** The platform names in increasing id order. */
  const PlatformNames: seq<string> := ["Facebook", "Instagram", "TikTok", "Twitter", "YouTube"]

  /** Python's `a < b` on `str`: lexicographic order of code points, a proper prefix first. */
  predicate StrLess(a: string, b: string) {
    if a == [] then b != []
    else if b == [] then false
    else if a[0] != b[0] then a[0] < b[0]
    else StrLess(a[1..], b[1..])
  }

  /** The table has five entries whose ids are pairwise distinct and cover exactly 0..4;
      `PlatformNames` lists its keys by id. */
  lemma PlatformMapShape()
    ensures PlatformMap.Keys == set p | p in PlatformNames
    ensures |PlatformMap| == 5
    ensures PlatformMap.Values == {0, 1, 2, 3, 4}
    ensures forall i :: 0 <= i < |PlatformNames| ==> PlatformMap[PlatformNames[i]] == i
    ensures forall p, q :: p in PlatformMap && q in PlatformMap && p != q ==> PlatformMap[p] != PlatformMap[q]
  {
    assert PlatformMap.Keys == {"Facebook", "Instagram", "TikTok", "Twitter", "YouTube"};
    assert "Facebook" != "Instagram" && "TikTok" != "Twitter";
    assert PlatformMap.Values == {0, 1, 2, 3, 4} by {
      assert PlatformMap["Facebook"] == 0 && PlatformMap["Instagram"] == 1 && PlatformMap["TikTok"] == 2;
      assert PlatformMap["Twitter"] == 3 && PlatformMap["YouTube"] == 4;
    }
  }

  /** The ids increase with the alphabetical order of the names, as the comment in the
      configuration asserts. */
  lemma PlatformIdsFollowNameOrder()
    ensures forall p, q :: p in PlatformMap && q in PlatformMap ==>
      (StrLess(p, q) <==> PlatformMap[p] < PlatformMap[q])
  {
    PlatformMapShape();
    forall p, q | p in PlatformMap && q in PlatformMap
      ensures StrLess(p, q) <==> PlatformMap[p] < PlatformMap[q]
    {
      var i :| 0 <= i < 5 && PlatformNames[i] == p;
      var j :| 0 <= j < 5 && PlatformNames[j] == q;
      NamesOrdered(i, j);
    }
  }

  /** One pair of names: they compare as their positions do. */
  lemma NamesOrdered(i: int, j: int)
    requires 0 <= i < 5 && 0 <= j < 5
    ensures StrLess(PlatformNames[i], PlatformNames[j]) <==> i < j
  {
    var a, b := PlatformNames[i], PlatformNames[j];
    assert PlatformNames[0][0] == 'F' && PlatformNames[1][0] == 'I' && PlatformNames[2][0] == 'T';
    assert PlatformNames[3][0] == 'T' && PlatformNames[4][0] == 'Y';
    assert PlatformNames[2][1] == 'i' && PlatformNames[3][1] == 'w';
    if i == j {
      StrLessIrreflexive(a);
    } else if a[0] != b[0] {
      assert StrLess(a, b) == (a[0] < b[0]);
    } else {
      assert {i, j} == {2, 3};
      assert a[1..][0] == a[1] && b[1..][0] == b[1];
      assert StrLess(a, b) == StrLess(a[1..], b[1..]) == (a[1] < b[1]);
    }
  }

  lemma {:induction false} StrLessIrreflexive(a: string)
    ensures !StrLess(a, a)
  {
    if a != [] {
      StrLessIrreflexive(a[1..]);
    }
  }

  /** Five distinct targets: the four counts first, the timing score last. */
  lemma TargetsShape()
    ensures |Targets| == 5
    ensures forall i, j :: 0 <= i < j < |Targets| ==> Targets[i] != Targets[j]
    ensures Targets[..4] == ["likes", "comments", "shares", "clicks"]
    ensures Targets[4] == "timing_quality_score"
  {
    assert Targets[0][0] == 'l' && Targets[1][0] == 'c' && Targets[2][0] == 's';
    assert Targets[3][0] == 'c' && Targets[4][0] == 't';
    assert Targets[1][1] == 'o' && Targets[3][1] == 'l';
  }
}
