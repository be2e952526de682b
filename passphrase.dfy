// The passphrases of day 4: a phrase is valid when no word (a field between
// spaces) occurs twice, and valid under the second policy when moreover no
// word is a rearrangement of the letters of an earlier one.
module Passphrase {
  import opened Text

  // ---------------------------------------------------------------------------
  // permutations

  /**
   * Every ordering of the letters of w: each ordering of the rest with the
   * first letter put back at each position. Go lists them in the order the
   * permutation library produces them, which the tests do not fix; here they
   * form a set.
   */
  function Permutations(w: string): set<string>
    decreases |w|
  {
    if w == [] then {[]}
    else set u, i | u in Permutations(w[1..]) && 0 <= i <= |u| :: Insert(u, i, w[0])
  }

  /** u with c put in at position i. */
  function Insert(u: string, i: int, c: char): (r: string)
    requires 0 <= i <= |u|
    ensures |r| == |u| + 1 && r[i] == c
  {
    u[..i] + [c] + u[i..]
  }

  /** Two words are anagrams when they hold the same letters the same number of times. */
  predicate Anagrams(u: string, w: string)
  {
    multiset(u) == multiset(w)
  }

  lemma InsertedLetters(u: string, i: int, c: char)
    requires 0 <= i <= |u|
    ensures multiset(Insert(u, i, c)) == multiset(u) + multiset{c}
  {
    assert u == u[..i] + u[i..];
  }

  lemma FirstLetter(w: string)
    requires w != []
    ensures multiset(w) == multiset(w[1..]) + multiset{w[0]}
  {
    assert w == [w[0]] + w[1..];
  }

  lemma CancelLetter(a: multiset<char>, b: multiset<char>, c: char)
    requires a + multiset{c} == b + multiset{c}
    ensures a == b
  {
    assert forall x :: a[x] == (a + multiset{c})[x] - multiset{c}[x];
  }

  /** Taking out the letter at i and putting it back gives the word again. */
  lemma RemoveInsert(u: string, i: int)
    requires 0 <= i < |u|
    ensures Insert(u[..i] + u[i + 1..], i, u[i]) == u
  {
    var v := u[..i] + u[i + 1..];
    assert v[..i] == u[..i] && v[i..] == u[i + 1..];
    assert u == u[..i] + [u[i]] + u[i + 1..];
  }

  lemma {:induction false} PermutationsAreAnagrams(w: string, u: string)
    requires u in Permutations(w)
    ensures Anagrams(u, w)
    decreases |w|
  {
    if w != [] {
      var v, i :| v in Permutations(w[1..]) && 0 <= i <= |v| && u == Insert(v, i, w[0]);
      PermutationsAreAnagrams(w[1..], v);
      InsertedLetters(v, i, w[0]);
      FirstLetter(w);
    }
  }

  lemma {:induction false} AnagramsArePermutations(w: string, u: string)
    requires Anagrams(u, w)
    ensures u in Permutations(w)
    decreases |w|
  {
    if w == [] {
      assert |u| == |multiset(u)| == 0;
    } else {
      var c := w[0];
      FirstLetter(w);
      assert c in multiset(u);
      var i :| 0 <= i < |u| && u[i] == c;
      var v := u[..i] + u[i + 1..];
      RemoveInsert(u, i);
      InsertedLetters(v, i, c);
      CancelLetter(multiset(v), multiset(w[1..]), c);
      AnagramsArePermutations(w[1..], v);
    }
  }

  /** permutations(w) holds exactly the rearrangements of w's letters. */
  lemma PermutationsAreReorderings(w: string, u: string)
    ensures u in Permutations(w) <==> Anagrams(u, w)
  {
    if u in Permutations(w) {
      PermutationsAreAnagrams(w, u);
    }
    if Anagrams(u, w) {
      AnagramsArePermutations(w, u);
    }
  }

  // ---------------------------------------------------------------------------
  // The two policies

  /** Some word occurs twice. */
  predicate HasRepeat(words: seq<string>)
  {
    exists i, j :: 0 <= i < j < |words| && words[i] == words[j]
  }

  /** Some word is an anagram of an earlier one (itself included). */
  predicate HasAnagram(words: seq<string>)
  {
    exists i, j :: 0 <= i < j < |words| && Anagrams(words[i], words[j])
  }

  /** The second policy is the stricter one: a word is an anagram of itself. */
  lemma Valid2IsStricter(words: seq<string>)
    ensures HasRepeat(words) ==> HasAnagram(words)
  {
    if HasRepeat(words) {
      var i, j :| 0 <= i < j < |words| && words[i] == words[j];
      assert Anagrams(words[i], words[j]);
    }
  }

  /** PassPhrase.isValid: one pass over the fields, remembering those seen. */
  method IsValid(p: string) returns (ok: bool)
    ensures ok <==> !HasRepeat(Fields(p))
  {
    var words := Fields(p);
    var seen: set<string> := {};
    for j := 0 to |words|
      invariant seen == set k | 0 <= k < j :: words[k]
      invariant forall a, b :: 0 <= a < b < j ==> words[a] != words[b]
    {
      if words[j] in seen {
        return false;
      }
      seen := seen + {words[j]};
    }
    return true;
  }

  /** seen holds exactly the anagrams of the first j words. */
  ghost predicate Remembers(seen: set<string>, words: seq<string>, j: int)
    requires 0 <= j <= |words|
  {
    forall s :: s in seen <==> exists k :: 0 <= k < j && Anagrams(s, words[k])
  }

  lemma RemembersStep(seen: set<string>, words: seq<string>, j: int)
    requires 0 <= j < |words| && Remembers(seen, words, j)
    ensures Remembers(seen + {words[j]} + Permutations(words[j]), words, j + 1)
  {
    var seen' := seen + {words[j]} + Permutations(words[j]);
    forall s
      ensures s in seen' <==> exists k :: 0 <= k < j + 1 && Anagrams(s, words[k])
    {
      PermutationsAreReorderings(words[j], s);
    }
  }

  /**
   * PassPhrase.isValid2: as isValid, but each word seen also puts all its
   * permutations in the set.
   */
  method IsValid2(p: string) returns (ok: bool)
    ensures ok <==> !HasAnagram(Fields(p))
  {
    var words := Fields(p);
    var seen: set<string> := {};
    for j := 0 to |words|
      invariant Remembers(seen, words, j)
      invariant forall a, b :: 0 <= a < b < j ==> !Anagrams(words[a], words[b])
    {
      var word := words[j];
      if word in seen {
        var k :| 0 <= k < j && Anagrams(word, words[k]);
        assert Anagrams(words[k], words[j]);
        return false;
      }
      RemembersStep(seen, words, j);
      seen := seen + {word} + Permutations(word);
    }
    return true;
  }

  /** A phrase without words is valid under both policies. */
  lemma EmptyPhraseIsValid(p: string)
    requires forall i :: 0 <= i < |p| ==> IsSpace(p[i])
    ensures !HasRepeat(Fields(p)) && !HasAnagram(Fields(p))
  {
    NoFieldsInSpaces(p);
  }

  lemma {:induction false} NoFieldsInSpaces(p: string)
    requires forall i :: 0 <= i < |p| ==> IsSpace(p[i])
    ensures Fields(p) == []
  {
    if p != [] {
      NoFieldsInSpaces(p[1..]);
    }
  }

  // ---------------------------------------------------------------------------
  // A reference check by counting letters, pair by pair

  /** How many times c occurs in w from position k on. */
  function CountFrom(w: string, c: char, k: nat): (n: nat)
    ensures n <= |w| - k || k > |w|
    decreases |w| - k
  {
    if k >= |w| then 0 else (if w[k] == c then 1 else 0) + CountFrom(w, c, k + 1)
  }

  lemma {:induction false} CountFromIsMultiplicity(w: string, c: char, k: nat)
    requires k <= |w|
    ensures CountFrom(w, c, k) == multiset(w[k..])[c]
    decreases |w| - k
  {
    if k < |w| {
      CountFromIsMultiplicity(w, c, k + 1);
      FirstLetter(w[k..]);
      assert w[k..][1..] == w[k + 1..];
    }
  }

  /** u and w hold each letter of cs, from position k on, equally often. */
  predicate SameCountsFrom(cs: string, k: nat, u: string, w: string)
    decreases |cs| - k
  {
    k >= |cs| || (CountFrom(u, cs[k], 0) == CountFrom(w, cs[k], 0) && SameCountsFrom(cs, k + 1, u, w))
  }

  lemma {:induction false} SameCountsAt(cs: string, k: nat, u: string, w: string, m: int)
    requires SameCountsFrom(cs, k, u, w) && k <= m < |cs|
    ensures CountFrom(u, cs[m], 0) == CountFrom(w, cs[m], 0)
    decreases m - k
  {
    if k < m {
      SameCountsAt(cs, k + 1, u, w, m);
    }
  }

  lemma {:induction false} SameCountsOfAnagrams(cs: string, k: nat, u: string, w: string)
    requires Anagrams(u, w)
    ensures SameCountsFrom(cs, k, u, w)
    decreases |cs| - k
  {
    if k < |cs| {
      CountFromIsMultiplicity(u, cs[k], 0);
      CountFromIsMultiplicity(w, cs[k], 0);
      assert u[0..] == u && w[0..] == w;
      SameCountsOfAnagrams(cs, k + 1, u, w);
    }
  }

  /** Anagrams decided by counting each letter that occurs in either word. */
  predicate CountsAgree(u: string, w: string)
  {
    |u| == |w| && SameCountsFrom(u, 0, u, w) && SameCountsFrom(w, 0, u, w)
  }

  lemma CountsAgreeIsAnagrams(u: string, w: string)
    ensures CountsAgree(u, w) <==> Anagrams(u, w)
  {
    assert u[0..] == u && w[0..] == w;
    if CountsAgree(u, w) {
      forall c ensures multiset(u)[c] == multiset(w)[c] {
        CountFromIsMultiplicity(u, c, 0);
        CountFromIsMultiplicity(w, c, 0);
        if c in u {
          var m :| 0 <= m < |u| && u[m] == c;
          SameCountsAt(u, 0, u, w, m);
        } else if c in w {
          var m :| 0 <= m < |w| && w[m] == c;
          SameCountsAt(w, 0, u, w, m);
        } else {
          assert c !in multiset(u) && c !in multiset(w);
        }
      }
    }
    if Anagrams(u, w) {
      SameCountsOfAnagrams(u, 0, u, w);
      SameCountsOfAnagrams(w, 0, u, w);
    }
  }

  /**
   * No two words are anagrams, checked pair by pair from the pair (i, j)
   * on: first the later partners of word i, then the pairs of later words.
   */
  predicate NoAnagramFrom(words: seq<string>, i: nat, j: nat)
    decreases |words| - i, |words| - j
  {
    if i >= |words| then true
    else if j >= |words| then NoAnagramFrom(words, i + 1, i + 2)
    else !CountsAgree(words[i], words[j]) && NoAnagramFrom(words, i, j + 1)
  }

  /** The pairs (a, b), a < b, that the check from (i, j) still visits. */
  predicate PairAtOrAfter(a: int, b: int, i: int, j: int)
  {
    a > i || (a == i && b >= j)
  }

  lemma {:induction false} NoAnagramFromIsPairwise(words: seq<string>, i: nat, j: nat)
    requires i < j
    ensures NoAnagramFrom(words, i, j)
        <==> forall a, b :: 0 <= a < b < |words| && PairAtOrAfter(a, b, i, j)
               ==> !Anagrams(words[a], words[b])
    decreases |words| - i, |words| - j
  {
    if i < |words| {
      if j >= |words| {
        NoAnagramFromIsPairwise(words, i + 1, i + 2);
      } else {
        CountsAgreeIsAnagrams(words[i], words[j]);
        NoAnagramFromIsPairwise(words, i, j + 1);
      }
    }
  }

  /** The pairwise check decides the second policy. */
  lemma PairwiseCheck(words: seq<string>)
    ensures !HasAnagram(words) <==> NoAnagramFrom(words, 0, 1)
  {
    NoAnagramFromIsPairwise(words, 0, 1);
  }

  // ---------------------------------------------------------------------------
  // The examples of day4_test.go

  lemma PermutationsOfOne(x: char)
    ensures Permutations([x]) == {[x]}
  {
    assert Permutations([x][1..]) == {[]};
    assert Insert([], 0, x) == [x];
  }

  lemma PermutationsOfTwo(x: char, y: char)
    ensures Permutations([x, y]) == {[x, y], [y, x]}
  {
    assert [x, y][1..] == [y];
    PermutationsOfOne(y);
    assert Insert([y], 0, x) == [x, y];
    assert Insert([y], 1, x) == [y, x];
  }

  lemma PermutationsOfThree(x: char, y: char, z: char)
    requires x != y && y != z && x != z
    ensures Permutations([x, y, z])
         == {[x, y, z], [y, x, z], [y, z, x], [x, z, y], [z, x, y], [z, y, x]}
    ensures |Permutations([x, y, z])| == 6
  {
    SixOrderings(x, y, z);
    assert [x, y, z][1..] == [y, z];
    PermutationsOfTwo(y, z);
    assert Insert([y, z], 0, x) == [x, y, z];
    assert Insert([y, z], 1, x) == [y, x, z];
    assert Insert([y, z], 2, x) == [y, z, x];
    assert Insert([z, y], 0, x) == [x, z, y];
    assert Insert([z, y], 1, x) == [z, x, y];
    assert Insert([z, y], 2, x) == [z, y, x];
  }

  lemma SixOrderings(x: char, y: char, z: char)
    requires x != y && y != z && x != z
    ensures |{[x, y, z], [y, x, z], [y, z, x], [x, z, y], [z, x, y], [z, y, x]}| == 6
  {
    var s1: set<string> := {[x, y, z]};
    var s2 := s1 + {[y, x, z]};
    assert [y, x, z] !in s1 by { assert [y, x, z][0] != [x, y, z][0]; }
    var s3 := s2 + {[y, z, x]};
    assert [y, z, x] !in s2 by {
      assert [y, z, x][0] != [x, y, z][0];
      assert [y, z, x][1] != [y, x, z][1];
    }
    var s4 := s3 + {[x, z, y]};
    assert [x, z, y] !in s3 by {
      assert [x, z, y][1] != [x, y, z][1];
      assert [x, z, y][0] != [y, x, z][0];
      assert [x, z, y][0] != [y, z, x][0];
    }
    var s5 := s4 + {[z, x, y]};
    assert [z, x, y] !in s4 by {
      assert [z, x, y][0] != [x, y, z][0];
      assert [z, x, y][0] != [y, x, z][0];
      assert [z, x, y][0] != [y, z, x][0];
      assert [z, x, y][0] != [x, z, y][0];
    }
    var s6 := s5 + {[z, y, x]};
    assert [z, y, x] !in s5 by {
      assert [z, y, x][0] != [x, y, z][0];
      assert [z, y, x][0] != [y, x, z][0];
      assert [z, y, x][0] != [y, z, x][0];
      assert [z, y, x][0] != [x, z, y][0];
      assert [z, y, x][1] != [z, x, y][1];
    }
    assert s6 == {[x, y, z], [y, x, z], [y, z, x], [x, z, y], [z, x, y], [z, y, x]};
  }

  /** The permutations test: "a", "ab" and "abc". */
  lemma ExamplePermutations()
    ensures Permutations("a") == {"a"}
    ensures Permutations("ab") == {"ab", "ba"}
    ensures |Permutations("abc")| == 6
  {
    PermutationsOfOne('a');
    PermutationsOfTwo('a', 'b');
    PermutationsOfThree('a', 'b', 'c');
  }

  lemma FieldsOfAllDistinct(p: string)
    requires p == "aa bb cc dd ee"
    ensures Fields(p) == ["aa", "bb", "cc", "dd", "ee"]
  {
    assert p == Join(["aa", "bb", "cc", "dd", "ee"], ' ');
    FieldsJoin(["aa", "bb", "cc", "dd", "ee"]);
  }

  lemma CheckAllDistinct()
    ensures NoAnagramFrom(["aa", "bb", "cc", "dd", "ee"], 0, 1)
  {
  }

  lemma WordsAllDistinct()
    ensures !HasRepeat(["aa", "bb", "cc", "dd", "ee"]) && !HasAnagram(["aa", "bb", "cc", "dd", "ee"])
  {
    CheckAllDistinct();
    PairwiseCheck(["aa", "bb", "cc", "dd", "ee"]);
    Valid2IsStricter(["aa", "bb", "cc", "dd", "ee"]);
  }

  /** Five different words: valid under both policies. */
  lemma ExamplePhraseAllDistinct(p: string)
    requires p == "aa bb cc dd ee"
    ensures !HasRepeat(Fields(p)) && !HasAnagram(Fields(p))
  {
    FieldsOfAllDistinct(p);
    WordsAllDistinct();
  }

  lemma FieldsOfRepeated(p: string)
    requires p == "aa bb cc dd aa"
    ensures Fields(p) == ["aa", "bb", "cc", "dd", "aa"]
  {
    assert p == Join(["aa", "bb", "cc", "dd", "aa"], ' ');
    FieldsJoin(["aa", "bb", "cc", "dd", "aa"]);
  }

  lemma WordsRepeated()
    ensures HasRepeat(["aa", "bb", "cc", "dd", "aa"]) && HasAnagram(["aa", "bb", "cc", "dd", "aa"])
  {
    var words := ["aa", "bb", "cc", "dd", "aa"];
    assert words[0] == words[4];
    Valid2IsStricter(words);
  }

  /** A repeated word: invalid under both policies. */
  lemma ExamplePhraseRepeated(p: string)
    requires p == "aa bb cc dd aa"
    ensures HasRepeat(Fields(p)) && HasAnagram(Fields(p))
  {
    FieldsOfRepeated(p);
    WordsRepeated();
  }

  lemma FieldsOfLongerWord(p: string)
    requires p == "aa bb cc dd aaa"
    ensures Fields(p) == ["aa", "bb", "cc", "dd", "aaa"]
  {
    assert p == Join(["aa", "bb", "cc", "dd", "aaa"], ' ');
    FieldsJoin(["aa", "bb", "cc", "dd", "aaa"]);
  }

  lemma CheckLongerWord()
    ensures NoAnagramFrom(["aa", "bb", "cc", "dd", "aaa"], 0, 1)
  {
  }

  lemma WordsLongerWord()
    ensures !HasRepeat(["aa", "bb", "cc", "dd", "aaa"]) && !HasAnagram(["aa", "bb", "cc", "dd", "aaa"])
  {
    CheckLongerWord();
    PairwiseCheck(["aa", "bb", "cc", "dd", "aaa"]);
    Valid2IsStricter(["aa", "bb", "cc", "dd", "aaa"]);
  }

  /** "aa" and "aaa" are different words, and not anagrams either. */
  lemma ExamplePhraseLongerWord(p: string)
    requires p == "aa bb cc dd aaa"
    ensures !HasRepeat(Fields(p)) && !HasAnagram(Fields(p))
  {
    FieldsOfLongerWord(p);
    WordsLongerWord();
  }

  lemma FieldsOfTwoWords(p: string)
    requires p == "abcde fghij"
    ensures Fields(p) == ["abcde", "fghij"]
  {
    assert p == Join(["abcde", "fghij"], ' ');
    FieldsJoin(["abcde", "fghij"]);
  }

  lemma CheckTwoWords()
    ensures NoAnagramFrom(["abcde", "fghij"], 0, 1)
  {
  }

  lemma WordsTwoWords()
    ensures !HasRepeat(["abcde", "fghij"]) && !HasAnagram(["abcde", "fghij"])
  {
    CheckTwoWords();
    PairwiseCheck(["abcde", "fghij"]);
    Valid2IsStricter(["abcde", "fghij"]);
  }

  /** Two words without a letter in common. */
  lemma ExamplePhraseTwoWords(p: string)
    requires p == "abcde fghij"
    ensures !HasRepeat(Fields(p)) && !HasAnagram(Fields(p))
  {
    FieldsOfTwoWords(p);
    WordsTwoWords();
  }

  lemma FieldsOfRearranged(p: string)
    requires p == "abcde xyz ecdab"
    ensures Fields(p) == ["abcde", "xyz", "ecdab"]
  {
    assert p == Join(["abcde", "xyz", "ecdab"], ' ');
    FieldsJoin(["abcde", "xyz", "ecdab"]);
  }

  lemma CheckRearranged()
    ensures CountsAgree("abcde", "ecdab")
  {
  }

  lemma WordsRearranged()
    ensures HasAnagram(["abcde", "xyz", "ecdab"])
  {
    var words := ["abcde", "xyz", "ecdab"];
    CheckRearranged();
    CountsAgreeIsAnagrams("abcde", "ecdab");
    assert Anagrams(words[0], words[2]);
  }

  /** "ecdab" rearranges "abcde". */
  lemma ExamplePhraseRearranged(p: string)
    requires p == "abcde xyz ecdab"
    ensures HasAnagram(Fields(p))
  {
    FieldsOfRearranged(p);
    WordsRearranged();
  }

  lemma FieldsOfPrefixes(p: string)
    requires p == "a ab abc abd abf abj"
    ensures Fields(p) == ["a", "ab", "abc", "abd", "abf", "abj"]
  {
    assert p == Join(["a", "ab", "abc", "abd", "abf", "abj"], ' ');
    FieldsJoin(["a", "ab", "abc", "abd", "abf", "abj"]);
  }

  lemma CheckPrefixes()
    ensures NoAnagramFrom(["a", "ab", "abc", "abd", "abf", "abj"], 0, 1)
  {
  }

  lemma WordsPrefixes()
    ensures !HasRepeat(["a", "ab", "abc", "abd", "abf", "abj"]) && !HasAnagram(["a", "ab", "abc", "abd", "abf", "abj"])
  {
    CheckPrefixes();
    PairwiseCheck(["a", "ab", "abc", "abd", "abf", "abj"]);
    Valid2IsStricter(["a", "ab", "abc", "abd", "abf", "abj"]);
  }

  /** Words sharing prefixes but no anagrams. */
  lemma ExamplePhrasePrefixes(p: string)
    requires p == "a ab abc abd abf abj"
    ensures !HasRepeat(Fields(p)) && !HasAnagram(Fields(p))
  {
    FieldsOfPrefixes(p);
    WordsPrefixes();
  }

  lemma FieldsOfLetterCounts(p: string)
    requires p == "iiii oiii ooii oooi oooo"
    ensures Fields(p) == ["iiii", "oiii", "ooii", "oooi", "oooo"]
  {
    assert p == Join(["iiii", "oiii", "ooii", "oooi", "oooo"], ' ');
    FieldsJoin(["iiii", "oiii", "ooii", "oooi", "oooo"]);
  }

  lemma CheckLetterCounts()
    ensures NoAnagramFrom(["iiii", "oiii", "ooii", "oooi", "oooo"], 0, 1)
  {
  }

  lemma WordsLetterCounts()
    ensures !HasRepeat(["iiii", "oiii", "ooii", "oooi", "oooo"]) && !HasAnagram(["iiii", "oiii", "ooii", "oooi", "oooo"])
  {
    CheckLetterCounts();
    PairwiseCheck(["iiii", "oiii", "ooii", "oooi", "oooo"]);
    Valid2IsStricter(["iiii", "oiii", "ooii", "oooi", "oooo"]);
  }

  /** Each word has a different number of o's. */
  lemma ExamplePhraseLetterCounts(p: string)
    requires p == "iiii oiii ooii oooi oooo"
    ensures !HasRepeat(Fields(p)) && !HasAnagram(Fields(p))
  {
    FieldsOfLetterCounts(p);
    WordsLetterCounts();
  }

  lemma FieldsOfShifted(p: string)
    requires p == "oiii ioii iioi iiio"
    ensures Fields(p) == ["oiii", "ioii", "iioi", "iiio"]
  {
    assert p == Join(["oiii", "ioii", "iioi", "iiio"], ' ');
    FieldsJoin(["oiii", "ioii", "iioi", "iiio"]);
  }

  lemma CheckShifted()
    ensures CountsAgree("oiii", "ioii")
  {
  }

  lemma WordsShifted()
    ensures HasAnagram(["oiii", "ioii", "iioi", "iiio"])
  {
    var words := ["oiii", "ioii", "iioi", "iiio"];
    CheckShifted();
    CountsAgreeIsAnagrams("oiii", "ioii");
    assert Anagrams(words[0], words[1]);
  }

  /** Every word has one o and three i's. */
  lemma ExamplePhraseShifted(p: string)
    requires p == "oiii ioii iioi iiio"
    ensures HasAnagram(Fields(p))
  {
    FieldsOfShifted(p);
    WordsShifted();
  }
}
