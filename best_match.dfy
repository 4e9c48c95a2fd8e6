/** find_best_match in material_data_scraper.py: choosing a search result by edit distance. */
module BestMatch {
  import opened Text
  import opened Levenshtein
  import opened Selection

  /** A search result: the material's display name and the link to its data sheet. */
  type Candidate = (string, string)

  /** The key `min` compares: the distance between the lower-cased query and the lower-cased name. */
  function MatchDistance(query: string, name: string): nat
  {
    Lev(Lower(query), Lower(name))
  }

  function Distances(query: string, results: seq<Candidate>): (ds: seq<nat>)
    ensures |ds| == |results|
    ensures forall i :: 0 <= i < |results| ==> ds[i] == MatchDistance(query, results[i].0)
  {
    seq(|results|, i requires 0 <= i < |results| => MatchDistance(query, results[i].0))
  }

  /**
   * The source's two steps: `min` over the names with the distance as key (the first least
   * name wins), then a scan for the first result carrying that name. The empty list makes
   * `min` raise; both callers (material_data_scraper.py lines 108 and 134) check for it first.
   */
  method FindBestMatch(query: string, results: seq<Candidate>) returns (name: string, link: string)
    requires |results| > 0
    ensures (name, link) == results[FirstMin(Distances(query, results))]
  {
    ghost var ds := Distances(query, results);
    var best := results[0].0;
    var bestDistance := LevenshteinDistance(Lower(query), Lower(best));
    ghost var bestIndex := 0;
    for i := 1 to |results|
      invariant 0 <= bestIndex < i
      invariant best == results[bestIndex].0 && bestDistance == ds[bestIndex]
      invariant forall j :: 0 <= j < i ==> bestDistance <= ds[j]
      invariant forall j :: 0 <= j < bestIndex ==> bestDistance < ds[j]
    {
      var d := LevenshteinDistance(Lower(query), Lower(results[i].0));
      if d < bestDistance {
        best, bestDistance, bestIndex := results[i].0, d, i;
      }
    }
    assert IsFirstMin(ds, bestIndex);
    var k := 0;
    while results[k].0 != best
      invariant 0 <= k <= bestIndex
      decreases bestIndex - k
    {
      k := k + 1;
    }
    FirstMinEarliest(ds, bestIndex, k);
    FirstMinUnique(ds, bestIndex, FirstMin(ds));
    name, link := results[k].0, results[k].1;
  }

  /**
   * Sample: for the query "Copper", "Copper C101" (5 edits) beats "Copper Alloy" (6 edits),
   * so the first candidate is chosen.
   */
  lemma SampleCopper(link1: string, link2: string)
    ensures FirstMin(Distances("Copper", [("Copper C101", link1), ("Copper Alloy", link2)])) == 0
  {
    var ds := Distances("Copper", [("Copper C101", link1), ("Copper Alloy", link2)]);
    CopperC101Close();
    CopperAlloyFar();
    assert ds[0] < ds[1];
  }

  /** "copper c101" is "copper" with five characters appended. */
  lemma CopperC101Close()
    ensures MatchDistance("Copper", "Copper C101") <= 5
  {
    assert Lower("Copper") == "copper";
    assert Lower("Copper C101") == "copper" + " c101";
    LevAppend("copper", " c101");
  }

  /** "copper alloy" is six characters longer than "copper". */
  lemma CopperAlloyFar()
    ensures MatchDistance("Copper", "Copper Alloy") >= 6
  {
    assert Lower("Copper") == "copper";
    assert |Lower("Copper Alloy")| == 12;
    LevLowerBound("copper", Lower("Copper Alloy"));
  }
}
