/** The Realtor-Speak Decoder: the user types something an agent said, and
    the page shows the first phrase of the `realtor_speak` table that occurs
    in it, with its translation (app.py, "Realtor-Speak Decoder" page). */
module Decoder {
  import opened Text

  /** `realtor_speak`: phrase -> what it really means, in table order. */
  type PhraseTable = seq<(string, string)>

  /** What the page shows for one input: nothing at all for an empty input
      (`if phrase_input:` is false), the "No direct match found" notice, or
      the matched phrase with its meaning. */
  datatype DecodeResult = NotDecoded | NoMatch | Match(phrase: string, meaning: string)

  /** The match test of the loop: `phrase.lower() in phrase_input.lower()`.
      The phrase must lie inside the input, not the other way round. */
  predicate PhraseIn(phrase: string, input: string)
  {
    Contains(Lower(phrase), Lower(input))
  }

  /** Entry `i` is the first entry whose phrase lies inside `input`. */
  ghost predicate FirstHit(table: PhraseTable, input: string, i: int)
  {
    0 <= i < |table| && PhraseIn(table[i].0, input) &&
    forall j :: 0 <= j < i ==> !PhraseIn(table[j].0, input)
  }

  /** The scan from entry `i` onwards, stopping at the first hit. */
  function ScanFrom(table: PhraseTable, input: string, i: nat): DecodeResult
    requires i <= |table|
    decreases |table| - i
  {
    if i == |table| then NoMatch
    else if PhraseIn(table[i].0, input) then Match(table[i].0, table[i].1)
    else ScanFrom(table, input, i + 1)
  }

  /** Specification of the decoder page's matching. */
  function Decode(table: PhraseTable, input: string): DecodeResult
  {
    if input == [] then NotDecoded else ScanFrom(table, input, 0)
  }

  /** The decoder loop of app.py: `found_match` starts false, the table is
      scanned in order, the first hit is shown and the loop `break`s; if the
      flag is still false the "no match" notice is shown.  An empty input
      skips all of it. */
  method DecodePhrase(table: PhraseTable, input: string) returns (r: DecodeResult)
    ensures r == Decode(table, input)
  {
    if input == [] {
      return NotDecoded;
    }
    var lowered := Lower(input);
    var foundMatch := false;
    r := NoMatch;
    var i := 0;
    while i < |table|
      invariant 0 <= i <= |table|
      invariant !foundMatch && r == NoMatch
      invariant ScanFrom(table, input, 0) == ScanFrom(table, input, i)
    {
      var (phrase, meaning) := table[i];
      if Contains(Lower(phrase), lowered) {
        r := Match(phrase, meaning);
        foundMatch := true;
        break;
      }
      i := i + 1;
    }
    if !foundMatch {
      r := NoMatch;
    }
  }

  /** What the scan from `i` returns, in terms of the entries from `i` on. */
  lemma {:induction false} ScanFromFacts(table: PhraseTable, input: string, i: nat)
    requires i <= |table|
    requires forall j :: 0 <= j < i ==> !PhraseIn(table[j].0, input)
    ensures ScanFrom(table, input, i) != NotDecoded
    ensures ScanFrom(table, input, i) == NoMatch <==>
              forall j :: 0 <= j < |table| ==> !PhraseIn(table[j].0, input)
    ensures ScanFrom(table, input, i).Match? ==>
              exists k :: FirstHit(table, input, k) &&
                          ScanFrom(table, input, i) == Match(table[k].0, table[k].1)
    decreases |table| - i
  {
    if i < |table| {
      if PhraseIn(table[i].0, input) {
        assert FirstHit(table, input, i);
      } else {
        ScanFromFacts(table, input, i + 1);
      }
    }
  }

  /** First match: when entry `i` is the first whose phrase lies inside a
      non-empty input, the decoder shows entry `i`, however many later
      phrases (longer or more specific ones included) also lie inside it. */
  lemma DecodeIsFirstHit(table: PhraseTable, input: string, i: int)
    requires input != [] && FirstHit(table, input, i)
    ensures Decode(table, input) == Match(table[i].0, table[i].1)
  {
    ScanFromFacts(table, input, 0);
    var k :| FirstHit(table, input, k) && Decode(table, input) == Match(table[k].0, table[k].1);
    assert !(k < i) && !(i < k);
  }

  /** Soundness: a shown phrase is an entry of the table, it really lies
      inside the input (case-insensitively), and no earlier entry does. */
  lemma DecodeMatchIsFirstHit(table: PhraseTable, input: string)
    requires Decode(table, input).Match?
    ensures exists k :: FirstHit(table, input, k) &&
                        Decode(table, input) == Match(table[k].0, table[k].1) &&
                        IsSubstring(Lower(table[k].0), Lower(input))
  {
    ScanFromFacts(table, input, 0);
  }

  /** Completeness: a non-empty input gets the "no match" notice exactly when
      no phrase of the table lies inside it, and an empty input is never
      decoded at all. */
  lemma DecodeNoMatch(table: PhraseTable, input: string)
    ensures Decode(table, input) == NotDecoded <==> input == []
    ensures input != [] ==>
              (Decode(table, input) == NoMatch <==>
                 forall j :: 0 <= j < |table| ==> !IsSubstring(Lower(table[j].0), Lower(input)))
  {
    if input != [] {
      ScanFromFacts(table, input, 0);
    }
  }

  /** The `break`: entries after the first hit are never consulted, so
      replacing them changes nothing. */
  lemma DecodeIgnoresLaterEntries(table: PhraseTable, input: string, i: int, later: PhraseTable)
    requires input != [] && FirstHit(table, input, i)
    ensures Decode(table[..i + 1] + later, input) == Decode(table, input)
  {
    var t := table[..i + 1] + later;
    assert FirstHit(t, input, i) by {
      forall j | 0 <= j <= i ensures t[j] == table[j] { }
    }
    DecodeIsFirstHit(table, input, i);
    DecodeIsFirstHit(t, input, i);
  }

  /** Matching ignores case: two inputs that lower-case alike decode alike. */
  lemma DecodeIgnoresCase(table: PhraseTable, a: string, b: string)
    requires Lower(a) == Lower(b)
    ensures Decode(table, a) == Decode(table, b)
  {
    assert |a| == |Lower(a)| == |Lower(b)| == |b|;
    ScanFromIgnoresCase(table, a, b, 0);
  }

  /** Matching ignores letter case: inputs that differ only in the case of
      ASCII letters ("PRICED TO SELL" and "priced to sell") decode alike. */
  lemma DecodeIgnoresLetterCase(table: PhraseTable, a: string, b: string)
    requires SameUpToCase(a, b)
    ensures Decode(table, a) == Decode(table, b)
  {
    SameUpToCaseLowerAlike(a, b);
    DecodeIgnoresCase(table, a, b);
  }

  lemma {:induction false} ScanFromIgnoresCase(table: PhraseTable, a: string, b: string, i: nat)
    requires Lower(a) == Lower(b) && i <= |table|
    ensures ScanFrom(table, a, i) == ScanFrom(table, b, i)
    decreases |table| - i
  {
    if i < |table| {
      ScanFromIgnoresCase(table, a, b, i + 1);
    }
  }

  /** The pressure badge of the "Common Phrases" list: a meaning is flagged
      as a pressure tactic when its lower-cased text contains "pressure" or
      "rush" (anywhere, "brush" included). */
  function IsPressureTactic(meaning: string): (b: bool)
    ensures b <==> IsSubstring("pressure", Lower(meaning)) || IsSubstring("rush", Lower(meaning))
  {
    Contains("pressure", Lower(meaning)) || Contains("rush", Lower(meaning))
  }
}

/** Worked instances of the decoder's matching policy: on the
    `realtor_speak` table itself, on single entries of it, and on a
    two-entry table of its own for the tie-break between a short and a
    longer phrase. */
module DecoderExamples {
  import opened Text
  import opened Decoder

  /** The `realtor_speak` table of app.py, in its order. */
  const RealtorSpeak: PhraseTable := [
    ("Priced to sell", "This property may be overpriced for the market, and the agent is trying to create urgency."),
    ("Seller is motivated", "The seller may be desperate, which could mean negotiation opportunities for you."),
    ("This won't last long", "Creating false urgency to prevent you from shopping around or negotiating."),
    ("Other buyers are interested", "Often a lie to create competition and rush your decision."),
    ("The market is really hot", "Trying to justify high prices and discourage negotiation."),
    ("You need to make an offer today", "High-pressure tactic to prevent you from doing due diligence."),
    ("Don't worry about the inspection", "Agent wants to avoid delays or deal-killing discoveries."),
    ("We should go in strong", "May result in you overpaying when a lower offer could work."),
    ("This is a great investment", "Deflecting from the home's suitability as a place to live."),
    ("The seller won't negotiate", "Often untrue - most sellers will negotiate to some degree."),
    ("You can always refinance later", "Encouraging you to accept bad loan terms now."),
    ("This is the best we can do", "Agents almost always have more room to negotiate."),
    ("Everyone else is bidding above asking", "Creating false competition and FOMO."),
    ("You don't want to lose this one", "Pure pressure tactic with no factual basis."),
    ("The seller is firm on price", "Usually means they haven't tried to negotiate yet.")
  ]

  /** On the real table: an input holding both the first entry and the third
      is decoded as the first, although the third lies inside it too. */
  lemma RealTableEarlierEntryWins()
    ensures RealtorSpeak[0].0 == "Priced to sell" && RealtorSpeak[2].0 == "This won't last long"
    ensures PhraseIn(RealtorSpeak[2].0, "Priced to sell. " + "This won't last long")
    ensures Decode(RealtorSpeak, "Priced to sell. " + "This won't last long") ==
            Match("Priced to sell", RealtorSpeak[0].1)
  {
    var first, third := RealtorSpeak[0], RealtorSpeak[2];
    assert first.0 == "Priced to sell" && third.0 == "This won't last long";
    assert "Priced to sell. " == first.0 + ". ";
    PhraseInOwnSentence(first.0, [], ". " + third.0);
    assert [] + first.0 + (". " + third.0) == "Priced to sell. " + third.0;
    PhraseInOwnSentence(third.0, "Priced to sell. ", []);
    assert "Priced to sell. " + third.0 + [] == "Priced to sell. " + third.0;
    FirstEntryWins(RealtorSpeak, "Priced to sell. " + third.0);
  }

  /** A phrase lies inside any sentence that quotes it. */
  lemma PhraseInOwnSentence(phrase: string, before: string, after: string)
    ensures PhraseIn(phrase, before + phrase + after)
  {
    LowerAppend(before + phrase, after);
    LowerAppend(before, phrase);
    assert OccursAt(Lower(phrase), Lower(phrase), 0);
    ContainsInExtension(Lower(phrase), Lower(before), Lower(phrase), Lower(after));
  }

  /** The first entry of the table wins whenever it lies inside the input. */
  lemma FirstEntryWins(table: PhraseTable, input: string)
    requires table != [] && input != [] && PhraseIn(table[0].0, input)
    ensures Decode(table, input) == Match(table[0].0, table[0].1)
  {
    assert FirstHit(table, input, 0);
    DecodeIsFirstHit(table, input, 0);
  }

  /** On the real table: a single word of a phrase decodes to nothing, since
      every phrase of the table is longer than it. */
  lemma RealTableWordIsNoMatch()
    ensures Decode(RealtorSpeak, "inspection") == NoMatch
  {
    var lengths := [14, 19, 20, 27, 24, 31, 32, 22, 26, 26, 30, 26, 37, 31, 27];
    assert |RealtorSpeak| == |lengths|;
    assert forall j :: 0 <= j < |RealtorSpeak| ==> |RealtorSpeak[j].0| == lengths[j];
    LongerPhrasesNeverMatch(RealtorSpeak, "inspection");
  }

  /** Phrases longer than the input cannot lie inside it. */
  lemma LongerPhrasesNeverMatch(table: PhraseTable, input: string)
    requires input != []
    requires forall j :: 0 <= j < |table| ==> |table[j].0| > |input|
    ensures Decode(table, input) == NoMatch
  {
    forall j | 0 <= j < |table| ensures !IsSubstring(Lower(table[j].0), Lower(input)) {
      assert |Lower(table[j].0)| == |table[j].0|;
    }
    DecodeNoMatch(table, input);
  }

  /** The phrase must lie inside the input: a sentence that quotes the whole
      phrase is decoded, a single word of the phrase is not. */
  lemma ContainmentDirection()
    ensures var phrase, meaning := "Don't worry about the inspection",
                                   "Agent wants to avoid delays or deal-killing discoveries.";
            Decode([(phrase, meaning)], phrase + ", it's minor") == Match(phrase, meaning) &&
            Decode([(phrase, meaning)], "inspection") == NoMatch
  {
    var phrase, meaning := "Don't worry about the inspection",
                           "Agent wants to avoid delays or deal-killing discoveries.";
    var table := [(phrase, meaning)];
    LowerAppend(phrase, ", it's minor");
    assert OccursAt(Lower(phrase), Lower(phrase), 0);
    ContainsInExtension(Lower(phrase), [], Lower(phrase), Lower(", it's minor"));
    assert [] + Lower(phrase) + Lower(", it's minor") == Lower(phrase + ", it's minor");
    DecodeIsFirstHit(table, phrase + ", it's minor", 0);
    assert |Lower(phrase)| > |Lower("inspection")|;
    assert !PhraseIn(phrase, "inspection");
    assert ScanFrom(table, "inspection", 1) == NoMatch;
  }

  /** Table order decides, not specificity: with "sell" listed before
      "Priced to sell", an input holding both is decoded as "sell". */
  lemma EarlierEntryWins(m1: string, m2: string)
    ensures var input := "This home is " + "Priced to sell" + " fast";
            PhraseIn("Priced to sell", input) &&
            Decode([("sell", m1), ("Priced to sell", m2)], input) == Match("sell", m1)
  {
    var input := "This home is " + "Priced to sell" + " fast";
    PhraseInOwnSentence("Priced to sell", "This home is ", " fast");
    assert input == "This home is Priced to " + "sell" + " fast";
    PhraseInOwnSentence("sell", "This home is Priced to ", " fast");
    FirstEntryWins([("sell", m1), ("Priced to sell", m2)], input);
  }

  /** A meaning of the table that carries the pressure badge through the
      word "rush". */
  lemma PressureBadge()
    ensures IsPressureTactic("Often a lie to create competition and " + "rush" + " your decision.")
  {
    var m := "Often a lie to create competition and " + "rush" + " your decision.";
    LowerAppend("Often a lie to create competition and " + "rush", " your decision.");
    LowerAppend("Often a lie to create competition and ", "rush");
    assert Lower("rush") == "rush";
    assert OccursAt("rush", Lower("rush"), 0);
    ContainsInExtension("rush", Lower("Often a lie to create competition and "), Lower("rush"), Lower(" your decision."));
  }
}
