/**
 * `Translator`: a two-way dictionary. Every word is stored once in `words`,
 * and the two directions map words to words independently.
 */
module Translator {
  class Translator {
    var words: set<string>
    var forward: map<string, string>
    var backward: map<string, string>

    /** Both directions only refer to stored words. */
    ghost predicate Valid()
      reads this
    {
      forward.Keys <= words && forward.Values <= words &&
      backward.Keys <= words && backward.Values <= words
    }

    constructor ()
      ensures Valid() && words == {} && forward == map[] && backward == map[]
    {
      words := {};
      forward := map[];
      backward := map[];
    }

    /** The target of `source`, or the empty string for an unknown word. */
    function TranslateForward(source: string): (r: string)
      reads this
      ensures source in forward ==> r == forward[source]
      ensures source !in forward ==> r == ""
    {
      if source in forward then forward[source] else ""
    }

    /** The source of `target`, or the empty string for an unknown word. */
    function TranslateBackward(target: string): (r: string)
      reads this
      ensures target in backward ==> r == backward[target]
      ensures target !in backward ==> r == ""
    {
      if target in backward then backward[target] else ""
    }

    /** Records `source` to `target` in both directions, overwriting earlier pairs for either word. */
    method Add(source: string, target: string)
      requires Valid()
      modifies this
      ensures Valid()
      ensures words == old(words) + {source, target}
      ensures forward == old(forward)[source := target]
      ensures backward == old(backward)[target := source]
      ensures TranslateForward(source) == target && TranslateBackward(target) == source
      ensures TranslateBackward(TranslateForward(source)) == source
      ensures forall w :: w != source ==> TranslateForward(w) == old(TranslateForward(w))
      ensures forall w :: w != target ==> TranslateBackward(w) == old(TranslateBackward(w))
    {
      words := words + {source, target};
      forward := forward[source := target];
      backward := backward[target := source];
    }
  }

  /** The session of `TestSimple`: an unknown word translates to the empty string, directions do not mix. */
  method TestSimple() returns (okno: string, table: string, stol: string)
    ensures okno == "window" && table == "stol" && stol == ""
  {
    var translator := new Translator();
    translator.Add("okno", "window");
    translator.Add("stol", "table");
    okno := translator.TranslateForward("okno");
    table := translator.TranslateBackward("table");
    stol := translator.TranslateBackward("stol");
  }
}
