/** The derived Region flag: 1 for an urban district, 0 otherwise. The
    serving page and the offline feature script each hard-code their own
    urban list, compared by exact string equality, and the two lists differ
    in the spelling of one name. */
module Region {
  import opened Domains

  /** The correctly spelled district name that the two rules disagree on. */
  const CauGiay: string := "CẦU GIẤY"

  /** The spelling the offline list uses for it (Â in place of Ấ). */
  const CauGiayTypo: string := "CẦU GIÂY"

  /** Urban names of the serving page. */
  const ServingUrban: seq<string> := [
    "CẦU GIẤY", "THANH XUÂN", "HAI BÀ TRƯNG", "TÂY HỒ", "ĐỐNG ĐA",
    "HOÀNG MAI", "HOÀN KIẾM", "BA ĐÌNH"]

  /** Urban names of the offline feature script. */
  const OfflineUrban: seq<string> := [
    "CẦU GIÂY", "THANH XUÂN", "HAI BÀ TRƯNG", "TÂY HỒ", "ĐỐNG ĐA",
    "HOÀNG MAI", "HOÀN KIẾM", "BA ĐÌNH"]

  /** The serving page's rule. Its extra test for Cầu Giấy is redundant: the
      flag is 1 exactly for the names of its urban list. */
  function GetRegion(district: string): (r: int)
    ensures r == 0 || r == 1
    ensures r == 1 <==> district in ServingUrban
  {
    if district in ServingUrban || district == CauGiay then 1 else 0
  }

  /** The offline script's rule: 1 exactly for the names of its own list,
      with no extra test. */
  function OfflineRegion(district: string): (r: int)
    ensures r == 0 || r == 1
    ensures r == 1 <==> district in OfflineUrban
  {
    if district in OfflineUrban then 1 else 0
  }

  /** The two lists agree except at their first name. */
  lemma UrbanListsDifferOnlyInFirst()
    ensures |ServingUrban| == |OfflineUrban| == 8
    ensures ServingUrban[0] == CauGiay && OfflineUrban[0] == CauGiayTypo
    ensures CauGiay != CauGiayTypo
    ensures ServingUrban[1..] == OfflineUrban[1..]
  {
    assert CauGiay[6] != CauGiayTypo[6];
  }

  /** The two rules give different flags for exactly two strings: the correct
      spelling of Cầu Giấy (urban when serving, non-urban offline) and the
      offline list's misspelling of it (the reverse). */
  lemma RegionRulesDisagree(d: string)
    ensures GetRegion(d) != OfflineRegion(d) <==> d == CauGiay || d == CauGiayTypo
    ensures GetRegion(CauGiay) == 1 && OfflineRegion(CauGiay) == 0
    ensures GetRegion(CauGiayTypo) == 0 && OfflineRegion(CauGiayTypo) == 1
  {
    UrbanListsDifferOnlyInFirst();
    var rest := ServingUrban[1..];
    assert ServingUrban == [CauGiay] + rest;
    assert OfflineUrban == [CauGiayTypo] + rest;
    assert CauGiay !in rest && CauGiayTypo !in rest by {
      forall k | 0 <= k < |rest|
        ensures rest[k] != CauGiay && rest[k] != CauGiayTypo
      {
        assert |rest[k]| != |CauGiay|;
      }
    }
  }

  /** The selectable districts, in select-box order, that a rule flags urban. */
  function UrbanAmong(ds: seq<string>, rule: string -> int): (u: seq<string>)
    ensures |u| <= |ds|
    ensures forall d :: d in u <==> d in ds && rule(d) == 1
  {
    if |ds| == 0 then []
    else (if rule(ds[0]) == 1 then [ds[0]] else []) + UrbanAmong(ds[1..], rule)
  }

  /** `cnt[k]` counts the names among `ds[..k]` that `rule` flags urban, and
      each flagged name sits at position `cnt[k]` of `u`. */
  predicate CountsTrack(ds: seq<string>, rule: string -> int, u: seq<string>, cnt: seq<nat>) {
    && |cnt| == |ds| + 1 && cnt[0] == 0 && cnt[|ds|] == |u|
    && (forall k :: 0 <= k < |ds| && rule(ds[k]) == 1 ==>
          cnt[k + 1] == cnt[k] + 1 && cnt[k] < |u| && u[cnt[k]] == ds[k])
    && (forall k :: 0 <= k < |ds| && rule(ds[k]) != 1 ==> cnt[k + 1] == cnt[k])
  }

  /** A table of running counts pins down what `UrbanAmong` returns. */
  lemma {:induction false} UrbanAmongByCounts(ds: seq<string>, rule: string -> int, u: seq<string>, cnt: seq<nat>, i: nat)
    requires CountsTrack(ds, rule, u, cnt)
    requires i <= |ds|
    ensures cnt[i] <= |u|
    ensures UrbanAmong(ds[i..], rule) == u[cnt[i]..]
    decreases |ds| - i
  {
    if i < |ds| {
      UrbanAmongByCounts(ds, rule, u, cnt, i + 1);
      assert ds[i..][1..] == ds[i + 1..];
      if rule(ds[i]) == 1 {
        assert u[cnt[i]..] == [u[cnt[i]]] + u[cnt[i + 1]..];
      }
    }
  }

  /** Proof aids, not part of the page or the script: which of the 29
      selectable districts each rule flags urban, and how many flagged
      districts precede each position. Spelling them out as literals keeps
      the selectability lemmas below within the solver's budget. */
  const ServingFlags: seq<int> := [1, 1, 1, 1, 1, 0, 0, 1, 0, 1, 0, 1, 0, 0, 0, 0, 0, 0, 0, 0, 0, 0, 0, 0, 0, 0, 0, 0, 0]
  const ServingCounts: seq<nat> := [0, 1, 2, 3, 4, 5, 5, 5, 6, 6, 7, 7, 8, 8, 8, 8, 8, 8, 8, 8, 8, 8, 8, 8, 8, 8, 8, 8, 8, 8]
  const OfflineFlags: seq<int> := [0, 1, 1, 1, 1, 0, 0, 1, 0, 1, 0, 1, 0, 0, 0, 0, 0, 0, 0, 0, 0, 0, 0, 0, 0, 0, 0, 0, 0]
  const OfflineCounts: seq<nat> := [0, 0, 1, 2, 3, 4, 4, 4, 5, 5, 6, 6, 7, 7, 7, 7, 7, 7, 7, 7, 7, 7, 7, 7, 7, 7, 7, 7, 7, 7]

  lemma ServingSelectableFlags()
    ensures |ServingFlags| == |Districts|
    ensures forall k :: 0 <= k < |Districts| ==> GetRegion(Districts[k]) == ServingFlags[k]
  {
  }

  lemma OfflineSelectableFlags()
    ensures |OfflineFlags| == |Districts|
    ensures forall k :: 0 <= k < |Districts| ==> OfflineRegion(Districts[k]) == OfflineFlags[k]
  {
  }

  lemma TypoNotSelectable()
    ensures forall k :: 0 <= k < |Districts| ==> Districts[k] != CauGiayTypo
  {
  }

  lemma ServingCountSteps()
    ensures forall k :: 0 <= k < 29 && ServingFlags[k] == 1 ==>
      ServingCounts[k + 1] == ServingCounts[k] + 1 && ServingCounts[k] < 8
    ensures forall k :: 0 <= k < 29 && ServingFlags[k] != 1 ==> ServingCounts[k + 1] == ServingCounts[k]
  {
    forall k | 0 <= k < 15
      ensures ServingFlags[k] == 1 ==> ServingCounts[k + 1] == ServingCounts[k] + 1 && ServingCounts[k] < 8
      ensures ServingFlags[k] != 1 ==> ServingCounts[k + 1] == ServingCounts[k]
    {
    }
    forall k | 15 <= k < 29
      ensures ServingFlags[k] != 1 && ServingCounts[k + 1] == ServingCounts[k]
    {
    }
  }

  lemma ServingCountNames()
    ensures forall k :: 0 <= k < |Districts| && ServingFlags[k] == 1 ==> ServingUrban[ServingCounts[k]] == Districts[k]
  {
  }

  /** The urban names both lists share. */
  const SharedUrban: seq<string> := [
    "THANH XUÂN", "HAI BÀ TRƯNG", "TÂY HỒ", "ĐỐNG ĐA", "HOÀNG MAI", "HOÀN KIẾM", "BA ĐÌNH"]

  lemma OfflineCountSteps()
    ensures forall k :: 0 <= k < 29 && OfflineFlags[k] == 1 ==>
      OfflineCounts[k + 1] == OfflineCounts[k] + 1 && OfflineCounts[k] < 7
    ensures forall k :: 0 <= k < 29 && OfflineFlags[k] != 1 ==> OfflineCounts[k + 1] == OfflineCounts[k]
  {
  }

  lemma OfflineCountNames()
    ensures forall k :: 0 <= k < |Districts| && OfflineFlags[k] == 1 ==> SharedUrban[OfflineCounts[k]] == Districts[k]
  {
  }

  /** Every serving-side urban name is selectable, and the districts the
      serving rule flags are exactly its eight urban names, in list order. */
  lemma ServingUrbanSelectable()
    ensures forall d :: d in ServingUrban ==> d in Districts
    ensures UrbanAmong(Districts, GetRegion) == ServingUrban
    ensures |UrbanAmong(Districts, GetRegion)| == 8
  {
    ServingSelectableFlags();
    ServingCountSteps();
    ServingCountNames();
    UrbanAmongByCounts(Districts, GetRegion, ServingUrban, ServingCounts, 0);
    assert Districts[0..] == Districts;
  }

  /** The districts the offline rule flags, in select-box order. */
  lemma OfflineUrbanAmong()
    ensures UrbanAmong(Districts, OfflineRegion) == SharedUrban
  {
    OfflineSelectableFlags();
    OfflineCountSteps();
    OfflineCountNames();
    UrbanAmongByCounts(Districts, OfflineRegion, SharedUrban, OfflineCounts, 0);
    assert Districts[0..] == Districts;
  }

  lemma SharedIsServingTail()
    ensures SharedUrban == ServingUrban[1..]
  {
  }

  /** Offline, the misspelt name cannot be selected, so only seven selectable
      districts are flagged urban and Cầu Giấy is not among them. */
  lemma OfflineUrbanSelectable()
    ensures CauGiayTypo !in Districts
    ensures UrbanAmong(Districts, OfflineRegion) == ServingUrban[1..]
    ensures |UrbanAmong(Districts, OfflineRegion)| == 7
    ensures CauGiay in Districts && CauGiay !in UrbanAmong(Districts, OfflineRegion)
  {
    TypoNotSelectable();
    OfflineUrbanAmong();
    SharedIsServingTail();
    assert Districts[0] == CauGiay;
    RegionRulesDisagree(CauGiay);
  }
}
