/**
 * The dict comprehensions of the dictionary-comprehension walkthrough: a
 * score sheet with random scores, a word-length table, the students scoring
 * 90 or more, and a pass/fail classification. Each comprehension is a run of
 * assignments over its source items (`OrderedDict.FromPairs`).
 */
module Comprehensions {
  import opened Common
  import opened Text
  import opened OrderedDict

  /** The score from which a student passes and counts as an A student. */
  const PassMark := 90

  // ---------------------------------------------------------------------------
  // 1. score_dict = {name: random.randint(75, 100) for name in names_list}

  /**
   * `random.randint(lo, hi)`, with the generator's output supplied as an
   * arbitrary natural number `draw`.
   */
  function RandInt(lo: int, hi: int, draw: nat): (r: int)
    requires lo <= hi
    ensures lo <= r <= hi
  {
    lo + draw % (hi - lo + 1)
  }

  /** Every value of the range is a possible outcome of `RandInt`. */
  lemma RandIntCovers(lo: int, hi: int, x: int)
    requires lo <= x <= hi
    ensures RandInt(lo, hi, (x - lo) as nat) == x
  {
  }

  function ScorePairs(names: seq<string>, draws: seq<nat>): (ps: seq<(string, int)>)
    requires |draws| == |names|
    ensures |ps| == |names|
    ensures forall i :: 0 <= i < |ps| ==> ps[i] == (names[i], RandInt(75, 100, draws[i]))
  {
    if names == [] then []
    else [(names[0], RandInt(75, 100, draws[0]))] + ScorePairs(names[1..], draws[1..])
  }

  /** One random score per name, the `i`-th drawn from `draws[i]`. */
  function ScoreDict(names: seq<string>, draws: seq<nat>): (d: Entries<int>)
    requires |draws| == |names|
    ensures DistinctKeys(d)
    ensures forall k :: k in Keys(d) <==> k in names
    ensures forall i :: 0 <= i < |d| ==> 75 <= d[i].1 <= 100
  {
    ScorePairsKeys(names, draws);
    ScoresKept(names, draws);
    FromPairs(ScorePairs(names, draws))
  }

  lemma ScorePairsKeys(names: seq<string>, draws: seq<nat>)
    requires |draws| == |names|
    ensures Keys(ScorePairs(names, draws)) == names
  {
  }

  /** A comprehension over drawn scores keeps only scores in the drawing range. */
  lemma ScoresKept(names: seq<string>, draws: seq<nat>)
    requires |draws| == |names|
    ensures forall i :: 0 <= i < |FromPairs(ScorePairs(names, draws))| ==>
      75 <= FromPairs(ScorePairs(names, draws))[i].1 <= 100
  {
    var ps := ScorePairs(names, draws);
    var d := FromPairs(ps);
    FromPairsFrom(ps);
    forall i | 0 <= i < |d| ensures 75 <= d[i].1 <= 100 {
      assert d[i] in ps;
    }
  }

  /** With distinct names (as in the walkthrough) every draw is kept, in name order. */
  lemma ScoreDictDistinctNames(names: seq<string>, draws: seq<nat>)
    requires |draws| == |names|
    requires forall i, j :: 0 <= i < j < |names| ==> names[i] != names[j]
    ensures |ScoreDict(names, draws)| == |names|
    ensures forall i :: 0 <= i < |names| ==>
      ScoreDict(names, draws)[i] == (names[i], RandInt(75, 100, draws[i]))
  {
    var ps := ScorePairs(names, draws);
    assert DistinctKeys(ps) by {
      forall i, j | 0 <= i < j < |ps| ensures ps[i].0 != ps[j].0 {
        assert ps[i].0 == names[i] && ps[j].0 == names[j];
      }
    }
    FromDistinctPairs(ps);
  }

  /** The ten names of the walkthrough. */
  function NamesList(): seq<string> {
    ["Tatum", "Clayton", "Reed", "James", "Shannon", "Ace", "Mike", "Jane", "Will", "Lisa"]
  }

  lemma NamesDistinct()
    ensures forall i, j :: 0 <= i < j < |NamesList()| ==> NamesList()[i] != NamesList()[j]
  {
  }

  // ---------------------------------------------------------------------------
  // 2. word_dict = {item: len(item) for item in sentence.split(" ")}

  function LengthPairs(words: seq<string>): (ps: seq<(string, int)>)
    ensures |ps| == |words|
    ensures forall i :: 0 <= i < |ps| ==> ps[i] == (words[i], |words[i]|)
  {
    if words == [] then [] else [(words[0], |words[0]|)] + LengthPairs(words[1..])
  }

  /** Each space-separated piece of `sentence` (empty pieces included) mapped to its length. */
  function WordLengths(sentence: string): (d: Entries<int>)
    ensures DistinctKeys(d)
    ensures forall k :: k in Keys(d) <==> k in SplitOn(sentence, ' ')
    ensures forall i :: 0 <= i < |d| ==> d[i].1 == |d[i].0|
  {
    var words := SplitOn(sentence, ' ');
    LengthPairsKeys(words);
    LengthsKept(words);
    FromPairs(LengthPairs(words))
  }

  lemma LengthPairsKeys(words: seq<string>)
    ensures Keys(LengthPairs(words)) == words
  {
  }

  /** A comprehension over length pairs keeps only pairs whose value is the key's length. */
  lemma LengthsKept(words: seq<string>)
    ensures forall i :: 0 <= i < |FromPairs(LengthPairs(words))| ==>
      FromPairs(LengthPairs(words))[i].1 == |FromPairs(LengthPairs(words))[i].0|
  {
    var ps := LengthPairs(words);
    var d := FromPairs(ps);
    FromPairsFrom(ps);
    forall i | 0 <= i < |d| ensures d[i].1 == |d[i].0| {
      assert d[i] in ps;
    }
  }

  /**
   * A sentence made of distinct words joined by single spaces maps each word
   * to its length, in sentence order.
   */
  lemma WordLengthsOfWords(words: seq<string>)
    requires |words| >= 1
    requires forall k :: 0 <= k < |words| ==> ' ' !in words[k]
    requires forall i, j :: 0 <= i < j < |words| ==> words[i] != words[j]
    ensures WordLengths(JoinWith(words, ' ')) == LengthPairs(words)
  {
    SplitJoin(words, ' ');
    var ps := LengthPairs(words);
    assert DistinctKeys(ps) by {
      forall i, j | 0 <= i < j < |ps| ensures ps[i].0 != ps[j].0 {
        assert ps[i].0 == words[i] && ps[j].0 == words[j];
      }
    }
    FromDistinctPairs(ps);
  }

  function SampleWords(): seq<string> {
    ["Do", "you", "want", "to", "learn", "python?"]
  }

  /** The sample words joined by single spaces, spelled out piece by piece. */
  lemma SampleJoin()
    ensures JoinWith(SampleWords(), ' ')
         == "Do" + " " + "you" + " " + "want" + " " + "to" + " " + "learn" + " " + "python?"
  {
  }

  lemma SampleSentence()
    ensures JoinWith(SampleWords(), ' ') == "Do you want to learn python?"
  {
    SampleJoin();
    assert "Do" + " " + "you" + " " + "want" + " " + "to" + " " + "learn" + " " + "python?"
        == "Do you want to learn python?";
  }

  lemma SampleWordsDistinct()
    ensures forall k :: 0 <= k < |SampleWords()| ==> ' ' !in SampleWords()[k]
    ensures forall i, j :: 0 <= i < j < |SampleWords()| ==> SampleWords()[i] != SampleWords()[j]
  {
  }

  lemma SampleLengths()
    ensures LengthPairs(SampleWords())
         == [("Do", 2), ("you", 3), ("want", 4), ("to", 2), ("learn", 5), ("python?", 7)]
  {
    var expected := [("Do", 2), ("you", 3), ("want", 4), ("to", 2), ("learn", 5), ("python?", 7)];
    var ps := LengthPairs(SampleWords());
    forall i | 0 <= i < |ps| ensures ps[i] == expected[i] {
      assert ps[i] == (SampleWords()[i], |SampleWords()[i]|);
    }
  }

  /** The walkthrough's sentence gives the table printed beside it. */
  lemma WordLengthsExample()
    ensures WordLengths("Do you want to learn python?")
         == [("Do", 2), ("you", 3), ("want", 4), ("to", 2), ("learn", 5), ("python?", 7)]
  {
    SampleSentence();
    SampleWordsDistinct();
    WordLengthsOfWords(SampleWords());
    SampleLengths();
  }

  // ---------------------------------------------------------------------------
  // 5. a_students = {name: score for (name, score) in score_dict.items() if score >= 90}

  /** The items whose score reaches `PassMark`, in their original order. */
  function AtLeastPassMark(items: seq<(string, int)>): (r: seq<(string, int)>)
    ensures |r| <= |items|
  {
    if items == [] then []
    else if items[0].1 >= PassMark then [items[0]] + AtLeastPassMark(items[1..])
    else AtLeastPassMark(items[1..])
  }

  /** The filter keeps exactly the items scoring at least 90. */
  lemma {:induction false} AtLeastPassMarkMembers(items: seq<(string, int)>)
    ensures forall p :: p in AtLeastPassMark(items) <==> p in items && p.1 >= PassMark
  {
    if items != [] {
      AtLeastPassMarkMembers(items[1..]);
      assert forall p :: p in items <==> p == items[0] || p in items[1..];
    }
  }

  /**
   * The A students: a dict whose every entry is an entry of the sheet
   * scoring at least 90, and in which every such name appears.
   */
  function AStudents(scores: Entries<int>): (d: Entries<int>)
    ensures DistinctKeys(d)
    ensures forall p :: p in d ==> p in scores && p.1 >= PassMark
    ensures forall i :: 0 <= i < |scores| && scores[i].1 >= PassMark ==> scores[i].0 in Keys(d)
  {
    var kept := AtLeastPassMark(scores);
    AtLeastPassMarkMembers(scores);
    FromPairsFrom(kept);
    forall i | 0 <= i < |scores| && scores[i].1 >= PassMark
      ensures scores[i].0 in Keys(kept)
    {
      assert scores[i] in kept;
      var j :| 0 <= j < |kept| && kept[j] == scores[i];
      assert Keys(kept)[j] == scores[i].0;
    }
    FromPairs(kept)
  }

  /** Filtering keeps keys distinct. */
  lemma {:induction false} FilterDistinct(items: seq<(string, int)>)
    requires DistinctKeys(items)
    ensures DistinctKeys(AtLeastPassMark(items))
  {
    if items != [] {
      FilterDistinct(items[1..]);
      AtLeastPassMarkMembers(items[1..]);
      var rest := AtLeastPassMark(items[1..]);
      forall j | 0 <= j < |rest| ensures rest[j].0 != items[0].0 {
        assert rest[j] in items[1..];
      }
    }
  }

  /**
   * On a real dict (distinct keys) the A students are exactly the entries
   * scoring at least 90, with their scores unchanged and in source order.
   */
  lemma AStudentsExact(scores: Entries<int>)
    requires DistinctKeys(scores)
    ensures AStudents(scores) == AtLeastPassMark(scores)
    ensures forall p :: p in AStudents(scores) <==> p in scores && p.1 >= PassMark
  {
    FilterDistinct(scores);
    AtLeastPassMarkMembers(scores);
    FromDistinctPairs(AtLeastPassMark(scores));
  }

  /** The fixed score sheet used for the filtering and classification examples. */
  function SampleScores(): Entries<int> {
    [("Tatum", 75), ("Clayton", 83), ("Reed", 75), ("James", 92), ("Shannon", 78),
     ("Ace", 100), ("Mike", 90), ("Jane", 92), ("Will", 84), ("Lisa", 79)]
  }

  /** The result printed beside the filter; Mike, at exactly 90, is included. */
  lemma AStudentsExample()
    ensures AStudents(SampleScores()) == [("James", 92), ("Ace", 100), ("Mike", 90), ("Jane", 92)]
    ensures Get(AStudents(SampleScores()), "Mike") == Some(90)
  {
    SampleScoresDistinct();
    AStudentsExact(SampleScores());
    SampleFilter();
    GetAt([("James", 92), ("Ace", 100), ("Mike", 90), ("Jane", 92)], 2);
  }

  lemma SampleFilter()
    ensures AtLeastPassMark(SampleScores()) == [("James", 92), ("Ace", 100), ("Mike", 90), ("Jane", 92)]
  {
    var head := [("Tatum", 75), ("Clayton", 83), ("Reed", 75)];
    var mid := [("James", 92), ("Shannon", 78), ("Ace", 100), ("Mike", 90)];
    var tail := [("Jane", 92), ("Will", 84), ("Lisa", 79)];
    assert AtLeastPassMark(head) == [];
    assert AtLeastPassMark(mid) == [("James", 92), ("Ace", 100), ("Mike", 90)];
    assert AtLeastPassMark(tail) == [("Jane", 92)];
    AtLeastPassMarkConcat(mid, tail);
    AtLeastPassMarkConcat(head, mid + tail);
    assert SampleScores() == head + (mid + tail);
  }

  /** Filtering two stretches of items one after the other. */
  lemma {:induction false} AtLeastPassMarkConcat(a: seq<(string, int)>, b: seq<(string, int)>)
    ensures AtLeastPassMark(a + b) == AtLeastPassMark(a) + AtLeastPassMark(b)
  {
    if a == [] {
      assert a + b == b;
    } else {
      assert (a + b)[0] == a[0];
      assert (a + b)[1..] == a[1..] + b;
      AtLeastPassMarkConcat(a[1..], b);
    }
  }

  // ---------------------------------------------------------------------------
  // 6. pass_failed = {name: ("Pass" if score >= 90 else "Failed") for (name, score) in score_dict.items()}

  const Pass := "Pass"
  const Failed := "Failed"

  function Verdict(score: int): string {
    if score >= PassMark then Pass else Failed
  }

  function VerdictPairs(items: seq<(string, int)>): (r: seq<(string, string)>)
    ensures |r| == |items|
    ensures forall i :: 0 <= i < |r| ==> r[i] == (items[i].0, Verdict(items[i].1))
  {
    if items == [] then [] else [(items[0].0, Verdict(items[0].1))] + VerdictPairs(items[1..])
  }

  /**
   * The classification: a dict over exactly the names of the sheet, each
   * marked with the verdict of one of its scores.
   */
  function PassFailed(scores: Entries<int>): (d: Entries<string>)
    ensures DistinctKeys(d)
    ensures forall k :: k in Keys(d) <==> k in Keys(scores)
    ensures forall i :: 0 <= i < |d| ==>
      exists j :: 0 <= j < |scores| && d[i] == (scores[j].0, Verdict(scores[j].1))
  {
    var marked := VerdictPairs(scores);
    assert Keys(marked) == Keys(scores);
    FromPairsFrom(marked);
    FromPairs(marked)
  }

  /**
   * On a real dict the classification has the same keys in the same order,
   * and a name is marked "Pass" exactly when its score is at least 90.
   */
  lemma PassFailedExact(scores: Entries<int>)
    requires DistinctKeys(scores)
    ensures PassFailed(scores) == VerdictPairs(scores)
    ensures forall i :: 0 <= i < |scores| ==>
      PassFailed(scores)[i] == (scores[i].0, if scores[i].1 >= PassMark then Pass else Failed)
  {
    VerdictPairsDistinct(scores);
    FromDistinctPairs(VerdictPairs(scores));
  }

  /** Classifying keeps the names, so it keeps them distinct. */
  lemma VerdictPairsDistinct(scores: Entries<int>)
    requires DistinctKeys(scores)
    ensures DistinctKeys(VerdictPairs(scores))
  {
    var v := VerdictPairs(scores);
    forall i, j | 0 <= i < j < |v| ensures v[i].0 != v[j].0 {
      assert v[i].0 == scores[i].0 && v[j].0 == scores[j].0;
    }
  }

  /** A name passes exactly when it is among the A students: both use the same mark. */
  lemma PassIffAStudent(scores: Entries<int>, i: nat)
    requires DistinctKeys(scores)
    requires i < |scores|
    ensures |PassFailed(scores)| == |scores|
    ensures PassFailed(scores)[i].1 == Pass <==> scores[i] in AStudents(scores)
  {
    PassFailedExact(scores);
    AStudentsExact(scores);
  }

  lemma SampleScoresDistinct()
    ensures DistinctKeys(SampleScores())
  {
  }

  function SampleVerdicts(): Entries<string> {
    [("Tatum", Failed), ("Clayton", Failed), ("Reed", Failed), ("James", Pass),
     ("Shannon", Failed), ("Ace", Pass), ("Mike", Pass), ("Jane", Pass),
     ("Will", Failed), ("Lisa", Failed)]
  }

  lemma SampleClassification()
    ensures VerdictPairs(SampleScores()) == SampleVerdicts()
  {
    ClassifySheet("Tatum", "Clayton", "Reed", "James", "Shannon", "Ace", "Mike", "Jane", "Will", "Lisa");
  }

  /** The classification of the sample marks depends only on the marks, whatever the names. */
  lemma ClassifySheet(n0: string, n1: string, n2: string, n3: string, n4: string,
                      n5: string, n6: string, n7: string, n8: string, n9: string)
    ensures VerdictPairs([(n0, 75), (n1, 83), (n2, 75), (n3, 92), (n4, 78),
                          (n5, 100), (n6, 90), (n7, 92), (n8, 84), (n9, 79)])
         == [(n0, Failed), (n1, Failed), (n2, Failed), (n3, Pass), (n4, Failed),
             (n5, Pass), (n6, Pass), (n7, Pass), (n8, Failed), (n9, Failed)]
  {
  }

  /** The classification printed beside the walkthrough. */
  lemma PassFailedExample()
    ensures PassFailed(SampleScores()) == SampleVerdicts()
  {
    SampleScoresDistinct();
    PassFailedExact(SampleScores());
    SampleClassification();
  }
}
