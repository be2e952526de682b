// Text helpers shared by the puzzle readers: Go's strings.Split, strings.Fields,
// strconv.Atoi and strconv.Itoa, and the unanchored `prefix(class+)suffix`
// patterns the readers search for with regexp.FindStringSubmatch.
module Text {
  import opened Common

  predicate IsDigit(c: char) { '0' <= c <= '9' }

  /** RE2's `\w`: ASCII letters, digits and underscore. */
  predicate IsWordChar(c: char)
  {
    IsDigit(c) || 'a' <= c <= 'z' || 'A' <= c <= 'Z' || c == '_'
  }

  /** RE2's `\s`: tab, newline, form feed, carriage return and space. */
  predicate IsRegexSpace(c: char)
  {
    c == '\t' || c == '\n' || c == '\U{000C}' || c == '\r' || c == ' '
  }

  /** Go's unicode.IsSpace, which strings.Fields splits on. */
  predicate IsSpace(c: char)
  {
    c == ' ' || c == '\t' || c == '\n' || c == '\U{000B}' || c == '\U{000C}' || c == '\r'
    || c == '\U{0085}' || c == '\U{00A0}' || c == '\U{1680}'
    || ('\U{2000}' <= c <= '\U{200A}')
    || c == '\U{2028}' || c == '\U{2029}' || c == '\U{202F}' || c == '\U{205F}' || c == '\U{3000}'
  }

  // ---------------------------------------------------------------------------
  // bytes.IndexByte

  /** bytes.IndexByte: the first index holding c, or -1. */
  function IndexOf(p: seq<char>, c: char): (r: int)
    ensures -1 <= r < |p|
    ensures r == -1 <==> c !in p
    ensures r >= 0 ==> p[r] == c && forall k :: 0 <= k < r ==> p[k] != c
  {
    if p == [] then -1
    else if p[0] == c then 0
    else
      var r := IndexOf(p[1..], c);
      if r < 0 then -1 else r + 1
  }

  // ---------------------------------------------------------------------------
  // strings.Split with a one-character separator

  /** Concatenates `parts` with `sep` between consecutive parts (strings.Join). */
  function Join(parts: seq<string>, sep: char): string
    requires |parts| >= 1
  {
    if |parts| == 1 then parts[0] else parts[0] + [sep] + Join(parts[1..], sep)
  }

  /** strings.Split(s, sep): always at least one part, one more than there are separators. */
  function Split(s: string, sep: char): (parts: seq<string>)
    ensures |parts| >= 1
    ensures forall i :: 0 <= i < |parts| ==> sep !in parts[i]
  {
    if s == [] then [""]
    else
      var rest := Split(s[1..], sep);
      if s[0] == sep then [""] + rest
      else [[s[0]] + rest[0]] + rest[1..]
  }

  lemma {:induction false} JoinSplit(s: string, sep: char)
    ensures Join(Split(s, sep), sep) == s
  {
    if s != [] {
      JoinSplit(s[1..], sep);
      var rest := Split(s[1..], sep);
      if s[0] == sep {
        assert ([""] + rest)[1..] == rest;
      } else {
        var parts := [[s[0]] + rest[0]] + rest[1..];
        if |rest| == 1 {
          assert s == [s[0]] + s[1..];
          assert parts == [s];
        } else {
          assert parts[1..] == rest[1..];
          assert Join(rest, sep) == rest[0] + [sep] + Join(rest[1..], sep);
        }
      }
    }
  }

  lemma SplitCons(c: char, t: string, sep: char)
    ensures c == sep ==> Split([c] + t, sep) == [""] + Split(t, sep)
    ensures c != sep ==> Split([c] + t, sep) == [[c] + Split(t, sep)[0]] + Split(t, sep)[1..]
  {
    assert ([c] + t)[1..] == t;
  }

  lemma JoinCons(c: char, parts: seq<string>, sep: char)
    requires |parts| >= 1
    ensures Join([[c] + parts[0]] + parts[1..], sep) == [c] + Join(parts, sep)
  {
    var longer := [[c] + parts[0]] + parts[1..];
    assert longer[1..] == parts[1..];
  }

  lemma {:induction false} SplitJoin(parts: seq<string>, sep: char)
    requires |parts| >= 1
    requires forall i :: 0 <= i < |parts| ==> sep !in parts[i]
    ensures Split(Join(parts, sep), sep) == parts
    decreases |parts|, |parts[0]|
  {
    if parts[0] == [] {
      if |parts| > 1 {
        var tail := parts[1..];
        SplitJoin(tail, sep);
        assert Join(parts, sep) == [sep] + Join(tail, sep);
        SplitCons(sep, Join(tail, sep), sep);
        assert [""] + tail == parts;
      }
    } else {
      var c := parts[0][0];
      var shorter := [parts[0][1..]] + parts[1..];
      assert parts[0] == [c] + shorter[0];
      assert shorter[1..] == parts[1..];
      assert parts == [[c] + shorter[0]] + shorter[1..];
      assert c != sep by { assert parts[0][0] in parts[0]; }
      assert forall i :: 0 <= i < |shorter| ==> sep !in shorter[i] by {
        forall i | 0 <= i < |shorter| ensures sep !in shorter[i] {
          if i > 0 { assert shorter[i] == parts[i]; }
        }
      }
      SplitJoin(shorter, sep);
      JoinCons(c, shorter, sep);
      SplitCons(c, Join(shorter, sep), sep);
    }
  }

  /** Joining comma-free parts is injective: the parts can be recovered. */
  lemma JoinInjective(p: seq<string>, q: seq<string>, sep: char)
    requires |p| >= 1 && |q| >= 1
    requires forall i :: 0 <= i < |p| ==> sep !in p[i]
    requires forall i :: 0 <= i < |q| ==> sep !in q[i]
    requires Join(p, sep) == Join(q, sep)
    ensures p == q
  {
    SplitJoin(p, sep);
    SplitJoin(q, sep);
  }

  // ---------------------------------------------------------------------------
  // strings.Fields

  /** strings.Fields: the maximal runs of non-space characters, in order. */
  function Fields(s: string): (fs: seq<string>)
    ensures forall i :: 0 <= i < |fs| ==> |fs[i]| > 0
    ensures forall i, j :: 0 <= i < |fs| && 0 <= j < |fs[i]| ==> !IsSpace(fs[i][j])
    ensures s != [] && !IsSpace(s[0]) ==> |fs| > 0 && fs[0][0] == s[0]
  {
    if s == [] then []
    else
      var rest := Fields(s[1..]);
      if IsSpace(s[0]) then rest
      else if |s| > 1 && !IsSpace(s[1]) then
        [[s[0]] + rest[0]] + rest[1..]
      else
        [[s[0]]] + rest
  }

  /** A space in front adds no field. */
  lemma FieldsSkip(c: char, t: string, fs: seq<string>)
    requires IsSpace(c) && Fields(t) == fs
    ensures Fields([c] + t) == fs
  {
    assert ([c] + t)[1..] == t;
  }

  /** A non-space in front of a space (or of nothing) is a field of its own. */
  lemma FieldsStart(c: char, t: string, fs: seq<string>)
    requires !IsSpace(c) && (t == [] || IsSpace(t[0])) && Fields(t) == fs
    ensures Fields([c] + t) == [[c]] + fs
  {
    assert ([c] + t)[1..] == t;
  }

  /** A non-space in front of a field joins it. */
  lemma FieldsGlue(c: char, t: string, w: string, fs: seq<string>)
    requires !IsSpace(c) && t != [] && !IsSpace(t[0]) && Fields(t) == [w] + fs
    ensures Fields([c] + t) == [[c] + w] + fs
  {
    assert ([c] + t)[1..] == t;
    assert ([w] + fs)[1..] == fs;
  }

  /** A word: non-empty and free of spaces. */
  predicate IsWord(w: string)
  {
    |w| > 0 && forall j :: 0 <= j < |w| ==> !IsSpace(w[j])
  }

  /** A word followed by a space (or by nothing) is the first field. */
  lemma {:induction false} FieldsOfWord(w: string, t: string)
    requires IsWord(w) && (t == [] || IsSpace(t[0]))
    ensures Fields(w + t) == [w] + Fields(t)
    decreases |w|
  {
    if |w| == 1 {
      FieldsStart(w[0], t, Fields(t));
      assert w + t == [w[0]] + t;
    } else {
      var rest := w[1..];
      FieldsOfWord(rest, t);
      assert w == [w[0]] + rest;
      assert w + t == [w[0]] + (rest + t);
      FieldsGlue(w[0], rest + t, rest, Fields(t));
    }
  }

  /** strings.Fields undoes joining words with single spaces. */
  lemma {:induction false} FieldsJoin(words: seq<string>)
    requires |words| >= 1
    requires forall i :: 0 <= i < |words| ==> IsWord(words[i])
    ensures Fields(Join(words, ' ')) == words
    decreases |words|
  {
    if |words| == 1 {
      FieldsOfWord(words[0], []);
      assert words[0] + [] == words[0];
    } else {
      var tail := Join(words[1..], ' ');
      FieldsJoin(words[1..]);
      FieldsSkip(' ', tail, words[1..]);
      assert words[0] + [' '] + tail == words[0] + ([' '] + tail);
      FieldsOfWord(words[0], [' '] + tail);
      assert [words[0]] + words[1..] == words;
    }
  }

  // ---------------------------------------------------------------------------
  // strconv.Atoi and strconv.Itoa (without Go's 64-bit range check)

  function DigitValue(c: char): nat
    requires IsDigit(c)
  {
    c as int - '0' as int
  }

  function DigitChar(d: nat): (c: char)
    requires d < 10
    ensures IsDigit(c) && DigitValue(c) == d
  {
    ('0' as int + d) as char
  }

  predicate AllDigits(s: string)
  {
    forall i :: 0 <= i < |s| ==> IsDigit(s[i])
  }

  /** The value of a string of decimal digits, most significant first. */
  function DigitsValue(s: string): nat
    requires AllDigits(s)
  {
    if s == [] then 0 else DigitsValue(s[..|s| - 1]) * 10 + DigitValue(s[|s| - 1])
  }

  /** strconv.Atoi: an optional sign, then at least one decimal digit, and nothing else. */
  function Atoi(s: string): (r: Option<int>)
    ensures r.Some? ==> |s| > 0
  {
    if |s| > 0 && (s[0] == '-' || s[0] == '+') then
      if |s| > 1 && AllDigits(s[1..]) then
        Some(if s[0] == '-' then 0 - DigitsValue(s[1..]) else DigitsValue(s[1..]))
      else None
    else if |s| > 0 && AllDigits(s) then Some(DigitsValue(s))
    else None
  }

  /** strconv.Atoi with its error ignored: what is not a number reads as 0. */
  function AtoiOrZero(s: string): int
  {
    match Atoi(s)
    case Some(v) => v
    case None => 0
  }

  /** The decimal digits of `n`, without leading zeros. */
  function NatToString(n: nat): (s: string)
    ensures |s| > 0 && AllDigits(s)
    ensures |s| > 1 ==> s[0] != '0'
  {
    if n < 10 then [DigitChar(n)] else NatToString(n / 10) + [DigitChar(n % 10)]
  }

  /** strconv.Itoa. */
  function Itoa(n: int): string
  {
    if n < 0 then "-" + NatToString(-n) else NatToString(n)
  }

  lemma {:induction false} DigitsOfNatToString(n: nat)
    ensures DigitsValue(NatToString(n)) == n
  {
    if n >= 10 {
      DigitsOfNatToString(n / 10);
      var s := NatToString(n);
      assert s[..|s| - 1] == NatToString(n / 10);
    }
  }

  /** Atoi reads back what Itoa writes. */
  lemma AtoiItoa(n: int)
    ensures Atoi(Itoa(n)) == Some(n)
  {
    if n < 0 {
      DigitsOfNatToString(-n);
      assert Itoa(n)[1..] == NatToString(-n);
    } else {
      DigitsOfNatToString(n);
    }
  }

  /** strconv.Itoa writes a single field: non-empty and without spaces. */
  lemma ItoaIsWord(n: int)
    ensures IsWord(Itoa(n))
  {
    var s := Itoa(n);
    forall j | 0 <= j < |s| ensures !IsSpace(s[j]) {
      if n < 0 && j > 0 {
        assert s[j] == NatToString(-n)[j - 1];
      }
    }
  }

  lemma ItoaInjective(a: int, b: int)
    requires Itoa(a) == Itoa(b)
    ensures a == b
  {
    AtoiItoa(a);
    AtoiItoa(b);
  }

  // ---------------------------------------------------------------------------
  // Unanchored search for `prefix(class+)suffix`, the shape of the readers' regexps.
  // The capture is the maximal run of class characters; since no suffix used here
  // starts with a class character, backtracking to a shorter run never helps, so
  // this is exactly the leftmost match regexp.FindStringSubmatch reports.

  /** RE2's `\w`, `\d` and `[-\w]`. */
  datatype CharClass = Word | Digits | Operand

  predicate InClass(c: char, cls: CharClass)
  {
    match cls
    case Word => IsWordChar(c)
    case Digits => IsDigit(c)
    case Operand => c == '-' || IsWordChar(c)
  }

  /** Length of the longest prefix of `s` made of class characters. */
  function RunLength(s: string, cls: CharClass): (n: nat)
    ensures n <= |s|
    ensures forall i :: 0 <= i < n ==> InClass(s[i], cls)
    ensures n < |s| ==> !InClass(s[n], cls)
  {
    if s == [] || !InClass(s[0], cls) then 0 else 1 + RunLength(s[1..], cls)
  }

  predicate HasPrefix(s: string, p: string)
  {
    |p| <= |s| && s[..|p|] == p
  }

  /** The pattern matches with its prefix starting at index i of s. */
  predicate MatchesAt(s: string, i: nat, prefix: string, cls: CharClass, suffix: string)
  {
    i + |prefix| <= |s| && HasPrefix(s[i..], prefix)
    && var n := RunLength(s[i + |prefix|..], cls);
    n > 0 && HasPrefix(s[i + |prefix| + n..], suffix)
  }

  function CaptureAt(s: string, i: nat, prefix: string, cls: CharClass): string
    requires i + |prefix| <= |s|
  {
    var start := i + |prefix|;
    s[start..start + RunLength(s[start..], cls)]
  }

  /** The capture of the leftmost match at or after `from`, or None. */
  function FindCapture(s: string, prefix: string, cls: CharClass, suffix: string, from: nat): (r: Option<string>)
    ensures r.None? ==> forall i :: from <= i <= |s| ==> !MatchesAt(s, i, prefix, cls, suffix)
    ensures r.Some? ==> exists i :: from <= i <= |s| && MatchesAt(s, i, prefix, cls, suffix)
                          && r.value == CaptureAt(s, i, prefix, cls)
                          && (forall j :: from <= j < i ==> !MatchesAt(s, j, prefix, cls, suffix))
    ensures r.Some? ==> |r.value| > 0 && forall k :: 0 <= k < |r.value| ==> InClass(r.value[k], cls)
    decreases |s| - from
  {
    if from + |prefix| > |s| then None
    else if MatchesAt(s, from, prefix, cls, suffix) then Some(CaptureAt(s, from, prefix, cls))
    else FindCapture(s, prefix, cls, suffix, from + 1)
  }

  lemma {:induction false} RunLengthOf(w: string, tail: string, cls: CharClass)
    requires forall k :: 0 <= k < |w| ==> InClass(w[k], cls)
    requires tail == [] || !InClass(tail[0], cls)
    ensures RunLength(w + tail, cls) == |w|
  {
    if w != [] {
      assert (w + tail)[1..] == w[1..] + tail;
      RunLengthOf(w[1..], tail, cls);
    }
  }

  /** A line made of prefix, a run of class characters, then text starting with suffix
      is read back by FindCapture. */
  lemma CaptureOfRendered(prefix: string, w: string, cls: CharClass, suffix: string, after: string)
    requires |w| > 0 && forall k :: 0 <= k < |w| ==> InClass(w[k], cls)
    requires after == [] || !InClass(after[0], cls)
    requires HasPrefix(after, suffix)
    ensures FindCapture(prefix + w + after, prefix, cls, suffix, 0) == Some(w)
  {
    var s := prefix + w + after;
    assert s[0..] == s;
    assert s[..|prefix|] == prefix;
    assert s[|prefix|..] == w + after;
    RunLengthOf(w, after, cls);
    assert s[|prefix| + |w|..] == after;
    assert MatchesAt(s, 0, prefix, cls, suffix);
    assert CaptureAt(s, 0, prefix, cls) == w;
  }

  /**
   * The pattern `lead(class+)sep(class+)` matches at index i; sep is not a class
   * character, so each run is maximal and there is nothing to backtrack into.
   */
  predicate PairAt(s: string, i: nat, lead: char, cls: CharClass, sep: char)
  {
    i < |s| && s[i] == lead
    && var n := RunLength(s[i + 1..], cls);
    n > 0 && i + 1 + n < |s| && s[i + 1 + n] == sep
    && RunLength(s[i + 2 + n..], cls) > 0
  }

  function PairCaptures(s: string, i: nat, lead: char, cls: CharClass, sep: char): (r: (string, string))
    requires PairAt(s, i, lead, cls, sep)
    ensures |r.0| > 0 && forall k :: 0 <= k < |r.0| ==> InClass(r.0[k], cls)
    ensures |r.1| > 0 && forall k :: 0 <= k < |r.1| ==> InClass(r.1[k], cls)
  {
    var n := RunLength(s[i + 1..], cls);
    var m := RunLength(s[i + 2 + n..], cls);
    (s[i + 1..i + 1 + n], s[i + 2 + n..i + 2 + n + m])
  }

  /** The two captures of the leftmost match of `lead(class+)sep(class+)` at or after `from`. */
  function FindPair(s: string, lead: char, cls: CharClass, sep: char, from: nat): (r: Option<(string, string)>)
    ensures r.Some? ==> |r.value.0| > 0 && forall k :: 0 <= k < |r.value.0| ==> InClass(r.value.0[k], cls)
    ensures r.Some? ==> |r.value.1| > 0 && forall k :: 0 <= k < |r.value.1| ==> InClass(r.value.1[k], cls)
    decreases |s| - from
  {
    if from >= |s| then None
    else if PairAt(s, from, lead, cls, sep) then Some(PairCaptures(s, from, lead, cls, sep))
    else FindPair(s, lead, cls, sep, from + 1)
  }

  /** FindPair finds nothing exactly when the pattern matches nowhere from `from` on. */
  lemma {:induction false} FindPairNone(s: string, lead: char, cls: CharClass, sep: char, from: nat)
    ensures FindPair(s, lead, cls, sep, from).None? <==> forall i :: from <= i < |s| ==> !PairAt(s, i, lead, cls, sep)
    decreases |s| - from
  {
    if from < |s| {
      FindPairNone(s, lead, cls, sep, from + 1);
    }
  }

  /** FindPair reports the captures of the leftmost match. */
  lemma {:induction false} FindPairLeftmost(s: string, lead: char, cls: CharClass, sep: char, from: nat, i: nat)
    requires from <= i && PairAt(s, i, lead, cls, sep)
    requires forall j :: from <= j < i ==> !PairAt(s, j, lead, cls, sep)
    ensures FindPair(s, lead, cls, sep, from) == Some(PairCaptures(s, i, lead, cls, sep))
    decreases i - from
  {
    assert from < |s|;
    if from < i {
      assert !PairAt(s, from, lead, cls, sep);
      assert FindPair(s, lead, cls, sep, from) == FindPair(s, lead, cls, sep, from + 1);
      FindPairLeftmost(s, lead, cls, sep, from + 1, i);
    }
  }

  /** The `(\w+)` capture of the first match of prefix + `(\w+)` + suffix anywhere in s. */
  function FindWord(s: string, prefix: string, suffix: string): Option<string>
  {
    FindCapture(s, prefix, Word, suffix, 0)
  }

  // ---------------------------------------------------------------------------
  // strings.Split and strings.Join with a separator string

  /** strings.Split(s, sep): s cut at each leftmost non-overlapping occurrence of sep. */
  function SplitOn(s: string, sep: string): (parts: seq<string>)
    requires |sep| > 0
    ensures |parts| >= 1
    decreases |s|
  {
    if HasPrefix(s, sep) then [""] + SplitOn(s[|sep|..], sep)
    else if s == [] then [""]
    else
      var rest := SplitOn(s[1..], sep);
      [[s[0]] + rest[0]] + rest[1..]
  }

  /** strings.Join(parts, sep). */
  function JoinOn(parts: seq<string>, sep: string): string
    requires |parts| >= 1
  {
    if |parts| == 1 then parts[0] else parts[0] + sep + JoinOn(parts[1..], sep)
  }

  lemma JoinOnStarts(parts: seq<string>, sep: string)
    requires |parts| >= 1
    ensures |JoinOn(parts, sep)| >= |parts[0]|
  {
  }

  lemma JoinOnCons(c: char, parts: seq<string>, sep: string)
    requires |parts| >= 1
    ensures JoinOn([[c] + parts[0]] + parts[1..], sep) == [c] + JoinOn(parts, sep)
  {
    var q := [[c] + parts[0]] + parts[1..];
    assert q[1..] == parts[1..];
  }

  /** Joining the pieces back with the separator gives the string that was split. */
  lemma {:induction false} JoinSplitOn(s: string, sep: string)
    requires |sep| > 0
    ensures JoinOn(SplitOn(s, sep), sep) == s
    decreases |s|
  {
    if HasPrefix(s, sep) {
      JoinSplitOn(s[|sep|..], sep);
      var r := SplitOn(s[|sep|..], sep);
      assert ([""] + r)[1..] == r;
      assert s == sep + s[|sep|..];
    } else if s != [] {
      JoinSplitOn(s[1..], sep);
      JoinOnCons(s[0], SplitOn(s[1..], sep), sep);
      assert s == [s[0]] + s[1..];
    }
  }

  /** A name as RE2's `\w+` matches it: non-empty, word characters only. */
  predicate IsName(w: string)
  {
    |w| > 0 && forall k :: 0 <= k < |w| ==> IsWordChar(w[k])
  }

  lemma {:induction false} SplitOnWord(w: string, tail: string, sep: string)
    requires |sep| > 0 && !IsWordChar(sep[0])
    requires forall k :: 0 <= k < |w| ==> IsWordChar(w[k])
    ensures SplitOn(w + tail, sep) == [w + SplitOn(tail, sep)[0]] + SplitOn(tail, sep)[1..]
    decreases |w|
  {
    if w != [] {
      assert (w + tail)[1..] == w[1..] + tail;
      assert (w + tail)[0] == w[0];
      SplitOnWord(w[1..], tail, sep);
      assert [w[0]] + (w[1..] + SplitOn(tail, sep)[0]) == w + SplitOn(tail, sep)[0];
    } else {
      var r := SplitOn(tail, sep);
      assert w + tail == tail;
      assert w + r[0] == r[0];
      assert [r[0]] + r[1..] == r;
    }
  }

  /** Names joined with a separator that is not a word character split back into those names. */
  lemma {:induction false} SplitOnJoin(parts: seq<string>, sep: string)
    requires |parts| >= 1 && |sep| > 0 && !IsWordChar(sep[0])
    requires forall i :: 0 <= i < |parts| ==> IsName(parts[i])
    ensures SplitOn(JoinOn(parts, sep), sep) == parts
    decreases |parts|
  {
    if |parts| == 1 {
      SplitOnWord(parts[0], "", sep);
      assert parts[0] + "" == parts[0];
      assert SplitOn("", sep) == [""];
    } else {
      var tail := sep + JoinOn(parts[1..], sep);
      assert JoinOn(parts, sep) == parts[0] + tail;
      SplitOnWord(parts[0], tail, sep);
      assert tail[..|sep|] == sep;
      assert tail[|sep|..] == JoinOn(parts[1..], sep);
      SplitOnJoin(parts[1..], sep);
      assert SplitOn(tail, sep) == [""] + parts[1..];
      assert parts[0] + "" == parts[0];
      assert ([""] + parts[1..])[1..] == parts[1..];
      assert [parts[0]] + parts[1..] == parts;
    }
  }
}
