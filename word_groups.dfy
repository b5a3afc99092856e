/**
 * The two `defaultdict` loops of the dictionary guide: grouping words by
 * their first letter (`defaultdict(list)`) and counting the words of a text
 * (`defaultdict(int)`). A missing key reads as the factory's value, `[]` or
 * `0`, and is then assigned.
 */
module WordGroups {
  import opened Common
  import opened Text

  // ---------------------------------------------------------------------------
  // for word in words: grouped[word[0]].append(word)

  /** The words of `words` whose first letter is `c`, in input order. */
  function StartingWith(words: seq<string>, c: char): (r: seq<string>)
    ensures |r| <= |words|
  {
    if words == [] then []
    else (if words[0] != [] && words[0][0] == c then [words[0]] else []) + StartingWith(words[1..], c)
  }

  /** A group holds exactly the input words that start with its letter. */
  lemma {:induction false} StartingWithMembers(words: seq<string>, c: char)
    ensures forall w :: w in StartingWith(words, c) <==> w in words && w != [] && w[0] == c
  {
    if words != [] {
      StartingWithMembers(words[1..], c);
      HeadTail(words);
    }
  }

  lemma PrefixSnoc<T>(s: seq<T>, j: nat)
    requires j < |s|
    ensures s[..j + 1] == s[..j] + [s[j]]
  {
  }

  /** Filtering a sequence extended by one word: the word joins the group of its first letter. */
  lemma {:induction false} StartingWithSnoc(words: seq<string>, w: string, c: char)
    ensures StartingWith(words + [w], c) == StartingWith(words, c) + (if w != [] && w[0] == c then [w] else [])
  {
    if words == [] {
      assert [] + [w] == [w];
    } else {
      assert (words + [w])[0] == words[0];
      assert (words + [w])[1..] == words[1..] + [w];
      StartingWithSnoc(words[1..], w, c);
    }
  }

  /** `grouped` holds, for every first letter that occurs, the words starting with it in input order. */
  ghost predicate Grouped(grouped: map<char, seq<string>>, words: seq<string>) {
    (forall c :: c in grouped <==> StartingWith(words, c) != []) &&
    (forall c :: c in grouped ==> grouped[c] == StartingWith(words, c))
  }

  /** Appending a word to the list of its first letter keeps the grouping exact. */
  lemma GroupedSnoc(grouped: map<char, seq<string>>, words: seq<string>, w: string)
    requires Grouped(grouped, words)
    requires w != []
    ensures Grouped(grouped[w[0] := (if w[0] in grouped then grouped[w[0]] else []) + [w]], words + [w])
  {
    forall d ensures StartingWith(words + [w], d) == StartingWith(words, d) + (if d == w[0] then [w] else []) {
      StartingWithSnoc(words, w, d);
    }
  }

  /**
   * `grouped[word[0]].append(word)` for every word in turn. An empty word has
   * no `word[0]`: the loop stops there with `IndexError`, reported as the
   * index of that word.
   */
  method GroupByFirstLetter(words: seq<string>) returns (r: Result<map<char, seq<string>>, nat>)
    ensures r.Failure? <==> exists j :: 0 <= j < |words| && words[j] == []
    ensures r.Failure? ==>
      r.error < |words| && words[r.error] == [] && forall j :: 0 <= j < r.error ==> words[j] != []
    ensures r.Success? ==> Grouped(r.value, words)
  {
    var grouped: map<char, seq<string>> := map[];
    for j := 0 to |words|
      invariant forall i :: 0 <= i < j ==> words[i] != []
      invariant Grouped(grouped, words[..j])
    {
      var word := words[j];
      if word == [] {
        return Failure(j);
      }
      var group := if word[0] in grouped then grouped[word[0]] else [];
      GroupedSnoc(grouped, words[..j], word);
      PrefixSnoc(words, j);
      grouped := grouped[word[0] := group + [word]];
    }
    assert words[..|words|] == words;
    return Success(grouped);
  }

  /** The guide's fruit list: two words under `a`, two under `b`, one under `c`. */
  lemma FruitGroups()
    ensures StartingWith(["apple", "banana", "cherry", "apricot", "blueberry"], 'a') == ["apple", "apricot"]
    ensures StartingWith(["apple", "banana", "cherry", "apricot", "blueberry"], 'b') == ["banana", "blueberry"]
    ensures StartingWith(["apple", "banana", "cherry", "apricot", "blueberry"], 'c') == ["cherry"]
  {
  }

  /** Every fruit starts with `a`, `b` or `c`, so no other letter has a group. */
  lemma FruitLetters(c: char)
    requires c != 'a' && c != 'b' && c != 'c'
    ensures StartingWith(["apple", "banana", "cherry", "apricot", "blueberry"], c) == []
  {
    var fruits := ["apple", "banana", "cherry", "apricot", "blueberry"];
    assert forall k :: 0 <= k < |fruits| ==> fruits[k][0] in {'a', 'b', 'c'};
    NoneStartWith(fruits, c);
  }

  /** A letter that starts none of the words has an empty group. */
  lemma {:induction false} NoneStartWith(words: seq<string>, c: char)
    requires forall k :: 0 <= k < |words| ==> words[k] == [] || words[k][0] != c
    ensures StartingWith(words, c) == []
  {
    if words != [] {
      assert forall k :: 0 <= k < |words| - 1 ==> words[1..][k] == words[k + 1];
      NoneStartWith(words[1..], c);
    }
  }

  /** The only grouping of the fruit list: `a`, `b` and `c`, each with its words in input order. */
  lemma FruitGrouped(grouped: map<char, seq<string>>)
    requires Grouped(grouped, ["apple", "banana", "cherry", "apricot", "blueberry"])
    ensures grouped == map['a' := ["apple", "apricot"], 'b' := ["banana", "blueberry"], 'c' := ["cherry"]]
  {
    FruitGroups();
    forall c | c != 'a' && c != 'b' && c != 'c' ensures c !in grouped {
      FruitLetters(c);
    }
    assert grouped.Keys == {'a', 'b', 'c'};
  }

  /** The guide's grouping of its fruit list. */
  method FruitExample() returns (r: Result<map<char, seq<string>>, nat>)
    ensures r == Success(map['a' := ["apple", "apricot"], 'b' := ["banana", "blueberry"], 'c' := ["cherry"]])
  {
    var fruits := ["apple", "banana", "cherry", "apricot", "blueberry"];
    assert forall j :: 0 <= j < |fruits| ==> fruits[j] != [];
    r := GroupByFirstLetter(fruits);
    FruitGrouped(r.value);
  }

  // ---------------------------------------------------------------------------
  // for word in text.split(): word_count[word] += 1

  /** How often `w` occurs in `words`. */
  function Occurrences(words: seq<string>, w: string): (n: nat)
    ensures n <= |words|
  {
    if words == [] then 0
    else (if words[0] == w then 1 else 0) + Occurrences(words[1..], w)
  }

  /** A word is counted at least once exactly when it occurs. */
  lemma {:induction false} OccurrencesPositive(words: seq<string>, w: string)
    ensures Occurrences(words, w) > 0 <==> w in words
  {
    if words != [] {
      OccurrencesPositive(words[1..], w);
      HeadTail(words);
    }
  }

  lemma OccurrencesSnoc(words: seq<string>, last: string, w: string)
    ensures Occurrences(words + [last], w) == Occurrences(words, w) + (if last == w then 1 else 0)
  {
    OccurrencesConcat(words, [last], w);
  }

  /** Counting over two stretches of words adds up. */
  lemma {:induction false} OccurrencesConcat(a: seq<string>, b: seq<string>, w: string)
    ensures Occurrences(a + b, w) == Occurrences(a, w) + Occurrences(b, w)
  {
    if a == [] {
      assert a + b == b;
    } else {
      assert (a + b)[0] == a[0];
      assert (a + b)[1..] == a[1..] + b;
      OccurrencesConcat(a[1..], b, w);
    }
  }

  /**
   * Grouping loses and duplicates nothing: a word occurs in the group of its
   * first letter exactly as often as in the input, and in no other group.
   */
  lemma {:induction false} GroupKeepsCount(words: seq<string>, w: string, c: char)
    requires w != []
    ensures Occurrences(StartingWith(words, c), w) == if w[0] == c then Occurrences(words, w) else 0
  {
    if words != [] {
      var head := words[0];
      GroupKeepsCount(words[1..], w, c);
      OccurrencesConcat(if head != [] && head[0] == c then [head] else [], StartingWith(words[1..], c), w);
    }
  }

  /** `Occurrences` is the multiplicity the multiset of the words gives. */
  lemma {:induction false} OccurrencesMultiset(words: seq<string>, w: string)
    ensures Occurrences(words, w) == multiset(words)[w]
  {
    if words != [] {
      OccurrencesMultiset(words[1..], w);
      HeadTail(words);
      assert multiset(words) == multiset([words[0]]) + multiset(words[1..]);
    }
  }

  /** `counts` maps exactly the words that occur to how often they occur. */
  ghost predicate Counted(counts: map<string, nat>, words: seq<string>) {
    (forall w :: w in counts <==> w in words) &&
    (forall w :: w in counts ==> counts[w] == Occurrences(words, w))
  }

  /** Adding one to the count of the next word keeps the counts exact. */
  lemma CountedSnoc(counts: map<string, nat>, words: seq<string>, word: string)
    requires Counted(counts, words)
    ensures Counted(counts[word := (if word in counts then counts[word] else 0) + 1], words + [word])
  {
    forall w ensures Occurrences(words + [word], w) == Occurrences(words, w) + (if w == word then 1 else 0) {
      OccurrencesSnoc(words, word, w);
    }
    assert forall w :: w in words + [word] <==> w in words || w == word;
    OccurrencesPositive(words, word);
  }

  /** `word_count[word] += 1` for every word of `text.split()`: each word mapped to how often it occurs. */
  method WordCount(text: string) returns (counts: map<string, nat>)
    ensures Counted(counts, SplitWords(text))
  {
    var words := SplitWords(text);
    counts := map[];
    for j := 0 to |words|
      invariant Counted(counts, words[..j])
    {
      var word := words[j];
      var seen := if word in counts then counts[word] else 0;
      CountedSnoc(counts, words[..j], word);
      PrefixSnoc(words, j);
      counts := counts[word := seen + 1];
    }
    assert words[..|words|] == words;
  }

  /** The guide's text, as the words `split()` gives. */
  lemma SampleTextWords()
    ensures SplitWords("hello world hello python world") == ["hello", "world", "hello", "python", "world"]
  {
    var words := ["hello", "world", "hello", "python", "world"];
    SampleTextJoin();
    SplitWordsJoin(words);
  }

  lemma SampleTextJoin()
    ensures JoinWith(["hello", "world", "hello", "python", "world"], ' ') == "hello world hello python world"
  {
    SampleTextPieces();
    assert "hello" + " " + "world" + " " + "hello" + " " + "python" + " " + "world"
        == "hello world hello python world";
  }

  lemma SampleTextPieces()
    ensures JoinWith(["hello", "world", "hello", "python", "world"], ' ')
         == "hello" + " " + "world" + " " + "hello" + " " + "python" + " " + "world"
  {
  }

  /** The only map that counts the guide's words exactly: `hello` and `world` twice, `python` once. */
  lemma SampleCounted(counts: map<string, nat>)
    requires Counted(counts, ["hello", "world", "hello", "python", "world"])
    ensures counts == map["hello" := 2, "world" := 2, "python" := 1]
  {
    var words := ["hello", "world", "hello", "python", "world"];
    SampleCounts();
    assert forall w :: w in words <==> w == "hello" || w == "world" || w == "python";
    assert counts.Keys == {"hello", "world", "python"};
  }

  /** The guide's count: `hello` and `world` twice, `python` once. */
  method WordCountExample() returns (counts: map<string, nat>)
    ensures counts == map["hello" := 2, "world" := 2, "python" := 1]
  {
    SampleTextWords();
    counts := WordCount("hello world hello python world");
    SampleCounted(counts);
  }

  lemma SampleCounts()
    ensures Occurrences(["hello", "world", "hello", "python", "world"], "hello") == 2
    ensures Occurrences(["hello", "world", "hello", "python", "world"], "world") == 2
    ensures Occurrences(["hello", "world", "hello", "python", "world"], "python") == 1
  {
  }
}
