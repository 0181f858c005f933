/** Parts of a list that keep its order. */
module Selection {

  /** `part` holds the elements of `whole` at `places`, in the order of `whole`. */
  ghost predicate PartAt<T>(whole: seq<T>, part: seq<T>, places: seq<nat>) {
    && |places| == |part|
    && (forall j :: 0 <= j < |places| ==> places[j] < |whole| && part[j] == whole[places[j]])
    && (forall i, j :: 0 <= i < j < |places| ==> places[i] < places[j])
  }

  /** The places are those of the elements to keep. */
  ghost predicate PlacesOf<T>(whole: seq<T>, places: seq<nat>, keep: T -> bool) {
    forall i :: 0 <= i < |whole| ==> (i in places <==> keep(whole[i]))
  }

  lemma NoPart<T>(keep: T -> bool)
    ensures PartAt<T>([], [], []) && PlacesOf([], [], keep)
  {
  }

  lemma LastPlace(places: seq<nat>, n: nat)
    ensures forall i :: i in places + [n] <==> i in places || i == n
  {
  }

  lemma PartOneMore<T>(whole: seq<T>, part: seq<T>, places: seq<nat>, x: T, keep: T -> bool)
    requires PartAt(whole, part, places) && PlacesOf(whole, places, keep)
    ensures keep(x) ==> PartAt(whole + [x], part + [x], places + [|whole|]) && PlacesOf(whole + [x], places + [|whole|], keep)
    ensures !keep(x) ==> PartAt(whole + [x], part, places) && PlacesOf(whole + [x], places, keep)
  {
    LastPlace(places, |whole|);
    forall i | 0 <= i < |whole + [x]|
      ensures i in (if keep(x) then places + [|whole|] else places) <==> keep((whole + [x])[i])
    {
      if i < |whole| { assert (whole + [x])[i] == whole[i]; }
    }
  }

  lemma PartGrows<T>(whole: seq<T>, part: seq<T>, places: seq<nat>, x: T)
    requires PartAt(whole, part, places)
    ensures PartAt(whole + [x], part, places) && PartAt(whole + [x], part + [x], places + [|whole|])
    ensures |whole| !in places
  {
  }
}
