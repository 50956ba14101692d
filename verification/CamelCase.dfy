/**
convert_camel_case_to_lower_case_underscore: the topic name derived from a port name. The loop inserts
into the string it runs over; characters are those of the "C" locale.
*/
module CamelCase {

  predicate IsUpper(c: char) { 'A' <= c <= 'Z' }

  function ToLower(c: char): char {
    if IsUpper(c) then (c as int - 'A' as int + 'a' as int) as char else c
  }

  function Lower(s: string): (r: string)
    ensures |r| == |s| && forall i | 0 <= i < |s| :: r[i] == ToLower(s[i])
  {
    seq(|s|, i requires 0 <= i < |s| => ToLower(s[i]))
  }

  /** An underscore before every capital but the first character. */
  function Underscored(s: string): string {
    if |s| <= 1 then s
    else Underscored(s[..|s| - 1]) + if IsUpper(s[|s| - 1]) then ['_', s[|s| - 1]] else [s[|s| - 1]]
  }

  function Capitals(s: string): nat {
    if s == [] then 0 else Capitals(s[..|s| - 1]) + if IsUpper(s[|s| - 1]) then 1 else 0
  }

  function WithoutUnderscores(s: string): string {
    if s == [] then [] else WithoutUnderscores(s[..|s| - 1]) + if s[|s| - 1] == '_' then [] else [s[|s| - 1]]
  }

  method Convert(s: string) returns (str: string)
    ensures str == Lower(Underscored(s))
    ensures |str| == |s| + (if s == [] then 0 else Capitals(s[1..]))
    ensures forall i | 0 <= i < |s| :: CharacterAt(s, str, i)
  {
    str := s;
    var i := 1;
    ghost var k := 1;  // the characters of s the loop is done with
    while i < |str|
      invariant 1 <= k && 1 <= i
      invariant k <= |s| ==> str == Underscored(s[..k]) + s[k..] && i == |Underscored(s[..k])|
      invariant k > |s| ==> str == s && |s| == 0
      decreases |s| - k
    {
      assert k < |s| && str[i] == s[k] && str[..i] == Underscored(s[..k]) && str[i..] == s[k..];
      assert s[..k + 1][..k] == s[..k] && s[k..] == [s[k]] + s[k + 1..];
      if IsUpper(str[i]) {
        str := str[..i] + "_" + str[i..];
        i := i + 1;
      }
      i := i + 1;
      k := k + 1;
    }
    if s != [] {
      assert k == |s| && s[..k] == s && s[k..] == [];
    }
    var j := 0;
    ghost var before := str;
    while j < |str|
      invariant 0 <= j <= |str| == |before|
      invariant forall n | 0 <= n < |str| :: str[n] == if n < j then ToLower(before[n]) else before[n]
    {
      str := str[j := ToLower(str[j])];
      j := j + 1;
    }
    EveryCharacter(s);
    TopicNameProperties(s);
  }

  lemma {:induction false} UnderscoredLength(s: string)
    ensures |Underscored(s)| == |s| + (if s == [] then 0 else Capitals(s[1..]))
    decreases |s|
  {
    if |s| <= 1 {
    } else {
      UnderscoredLength(s[..|s| - 1]);
      LastCapital(s);
    }
  }

  const CAPITALS := "ABCDEFGHIJKLMNOPQRSTUVWXYZ"
  const SMALL_LETTERS := "abcdefghijklmnopqrstuvwxyz"

  /** The capitals are those of the alphabet. */
  lemma CapitalsAreAlphabet(c: char)
    ensures IsUpper(c) <==> c in CAPITALS
  {
    if IsUpper(c) { assert CAPITALS[c as int - 'A' as int] == c; }
  }

  /** Each capital becomes its small letter, and nothing else changes. */
  lemma LowerIsAlphabet(c: char, i: nat)
    requires i < 26
    ensures |CAPITALS| == |SMALL_LETTERS| == 26 && ToLower(CAPITALS[i]) == SMALL_LETTERS[i]
    ensures c !in CAPITALS ==> ToLower(c) == c
  {
    CapitalsAreAlphabet(c);
  }

  /** Where character i of the port name goes: behind as many underscores as there are capitals up to it. */
  function PlaceOf(s: string, i: nat): nat
    requires i < |s|
  {
    i + Capitals(s[1..i + 1])
  }

  /** Character i stands at its place in lower case, and right before a capital stands an underscore. */
  predicate CharacterAt(s: string, r: string, i: nat)
    requires i < |s|
  {
    var k := PlaceOf(s, i);
    && k < |r| && r[k] == ToLower(s[i])
    && (i > 0 && IsUpper(s[i]) ==> k > 0 && r[k - 1] == '_')
  }

  lemma LastCapital(s: string)
    requires |s| > 1
    ensures var n := |s| - 1; Capitals(s[1..]) == Capitals(s[..n][1..]) + if IsUpper(s[n]) then 1 else 0
  {
    var n := |s| - 1;
    assert |s[1..]| == n && s[1..][n - 1] == s[n] && s[1..][..n - 1] == s[..n][1..];
  }

  lemma {:induction false} PlaceInUnderscored(s: string, i: nat)
    requires i < |s|
    ensures var u, k := Underscored(s), PlaceOf(s, i);
            && k < |u| && u[k] == s[i]
            && (i > 0 && IsUpper(s[i]) ==> k > 0 && u[k - 1] == '_')
    decreases |s|
  {
    var n := |s| - 1;
    var front := s[..n];
    if n == 0 {
      assert s[1..1] == [];
    } else if i < n {
      PlaceInUnderscored(front, i);
      assert front[1..i + 1] == s[1..i + 1] && front[i] == s[i];
    } else {
      UnderscoredLength(front);
      assert s[1..n + 1] == s[1..];
      LastCapital(s);
    }
  }

  lemma EveryCharacter(s: string)
    ensures forall i | 0 <= i < |s| :: CharacterAt(s, TopicName(s), i)
  {
    forall i | 0 <= i < |s| ensures CharacterAt(s, TopicName(s), i) {
      PlaceInUnderscored(s, i);
    }
  }

  lemma {:induction false} NothingToInsert(s: string)
    requires Capitals(s) == 0
    ensures Underscored(s) == s
    decreases |s|
  {
    if |s| <= 1 {
    } else {
      NothingToInsert(s[..|s| - 1]);
    }
  }

  lemma {:induction false} OnlyUnderscoresInserted(s: string)
    ensures WithoutUnderscores(Lower(Underscored(s))) == WithoutUnderscores(Lower(s))
    decreases |s|
  {
    if |s| <= 1 {
    } else {
      var front, c := s[..|s| - 1], s[|s| - 1];
      OnlyUnderscoresInserted(front);
      var end := if IsUpper(c) then ['_', c] else [c];
      LowerConcat(Underscored(front), end);
      LowerConcat(front, [c]);
      assert s == front + [c];
      WithoutConcat(Lower(Underscored(front)), Lower(end));
      WithoutConcat(Lower(front), Lower([c]));
      EndWithoutUnderscore(c);
    }
  }

  lemma LowerConcat(s: string, t: string)
    ensures Lower(s + t) == Lower(s) + Lower(t)
  {
  }

  lemma {:induction false} WithoutConcat(s: string, t: string)
    ensures WithoutUnderscores(s + t) == WithoutUnderscores(s) + WithoutUnderscores(t)
    decreases |t|
  {
    if t == [] {
      assert s + t == s;
    } else {
      assert (s + t)[..|s + t| - 1] == s + t[..|t| - 1];
      WithoutConcat(s, t[..|t| - 1]);
    }
  }

  lemma EndWithoutUnderscore(c: char)
    ensures IsUpper(c) ==> WithoutUnderscores(Lower(['_', c])) == WithoutUnderscores(Lower([c]))
  {
    if IsUpper(c) {
      assert Lower(['_', c]) == ['_', ToLower(c)] && Lower([c]) == [ToLower(c)];
      assert ['_', ToLower(c)] == ['_'] + [ToLower(c)];
      WithoutConcat(['_'], [ToLower(c)]);
      assert ['_'][..0] == [];
    }
  }

  lemma {:induction false} NoCapitals(s: string)
    requires forall i | 0 <= i < |s| :: !IsUpper(s[i])
    ensures Capitals(s) == 0
    decreases |s|
  {
    if s == [] {
    } else {
      NoCapitals(s[..|s| - 1]);
    }
  }

  lemma LowerHasNoCapitals(s: string)
    ensures forall i | 0 <= i < |s| :: !IsUpper(Lower(s)[i])
  {
    forall i | 0 <= i < |s| ensures !IsUpper(Lower(s)[i]) {
      assert Lower(s)[i] == ToLower(s[i]);
    }
  }

  /** The topic name of port name s. */
  function TopicName(s: string): string { Lower(Underscored(s)) }

  /**
  The name grows by one character for each capital after the first character, has no capitals, is its
  own topic name, and is the lower-cased port name up to underscores.
  */
  lemma TopicNameProperties(s: string)
    ensures |TopicName(s)| == |s| + (if s == [] then 0 else Capitals(s[1..]))
    ensures forall c | c in TopicName(s) :: !IsUpper(c)
    ensures TopicName(TopicName(s)) == TopicName(s)
    ensures WithoutUnderscores(TopicName(s)) == WithoutUnderscores(Lower(s))
  {
    UnderscoredLength(s);
    OnlyUnderscoresInserted(s);
    var r := TopicName(s);
    LowerHasNoCapitals(Underscored(s));
    NoCapitals(r);
    NothingToInsert(r);
    assert Lower(r) == r;
  }
}
