/** The list columns of the OAuth provider: a list of strings in one text column (internal/sqlstore/oauthprovider.go). */
module ListColumns {
  import opened Common

  function JoinList(values: seq<string>): string {
    if values == [] then ""
    else if |values| == 1 then values[0]
    else values[0] + " " + JoinList(values[1..])
  }

  /** The number of leading characters that are no white space. */
  function WordLength(s: string): (n: nat)
    ensures n <= |s| && (forall i | 0 <= i < n :: !IsSpace(s[i])) && (n < |s| ==> IsSpace(s[n]))
  {
    if s == "" || IsSpace(s[0]) then 0 else 1 + WordLength(s[1..])
  }

  /** The words between runs of white space, as strings.Fields finds them. */
  function Fields(s: string): seq<string>
    decreases |s|
  {
    if s == "" then []
    else if IsSpace(s[0]) then Fields(s[1..])
    else [s[..WordLength(s)]] + Fields(s[WordLength(s)..])
  }

  function SplitList(column: string): seq<string> {
    if forall c | c in column :: IsSpace(c) then [] else Fields(column)
  }

  predicate IsWord(s: string) {
    s != "" && forall i | 0 <= i < |s| :: !IsSpace(s[i])
  }

  predicate AllWords(values: seq<string>) {
    forall v | v in values :: IsWord(v)
  }

  lemma {:induction false} BlankHasNoFields(s: string)
    requires forall c | c in s :: IsSpace(c)
    ensures Fields(s) == []
  {
    if s != "" {
      assert forall c | c in s[1..] :: c in s;
      BlankHasNoFields(s[1..]);
    }
  }

  /** The guard of SplitList only saves work. */
  lemma SplitIsFields(column: string)
    ensures SplitList(column) == Fields(column)
  {
    if forall c | c in column :: IsSpace(c) {
      BlankHasNoFields(column);
    }
  }

  lemma {:induction false} FieldsAreWords(s: string)
    ensures AllWords(Fields(s))
    decreases |s|
  {
    if s == "" {
    } else if IsSpace(s[0]) {
      FieldsAreWords(s[1..]);
    } else {
      FieldsAreWords(s[WordLength(s)..]);
    }
  }

  lemma {:induction false} WordLengthIs(s: string, n: nat)
    requires n <= |s| && (forall i | 0 <= i < n :: !IsSpace(s[i])) && (n < |s| ==> IsSpace(s[n]))
    ensures WordLength(s) == n
  {
    if n > 0 {
      WordLengthIs(s[1..], n - 1);
    }
  }

  lemma {:induction false} WordsSurvive(values: seq<string>)
    requires AllWords(values)
    ensures Fields(JoinList(values)) == values
  {
    if values != [] {
      var first, rest := values[0], values[1..];
      assert first in values && forall v | v in rest :: v in values;
      if rest == [] {
        WordLengthIs(first, |first|);
        assert first[|first|..] == "" && first[..|first|] == first && values == [first];
      } else {
        JoinedFields(first, JoinList(rest));
        WordsSurvive(rest);
      }
    }
  }

  /** The first word of a joined list comes back, and the rest is split on its own. */
  lemma JoinedFields(first: string, rest: string)
    requires IsWord(first)
    ensures Fields(first + " " + rest) == [first] + Fields(rest)
  {
    var s := first + " " + rest;
    assert forall i | 0 <= i < |first| :: s[i] == first[i];
    assert s[|first|] == ' ';
    WordLengthIs(s, |first|);
    assert s[..|first|] == first && s[|first|..] == " " + rest;
    assert (" " + rest)[1..] == rest;
  }

  /** A list comes back from its column exactly when every value is a word: not empty, and without white space. */
  lemma RoundTripIff(values: seq<string>)
    ensures SplitList(JoinList(values)) == values <==> AllWords(values)
  {
    SplitIsFields(JoinList(values));
    if AllWords(values) {
      WordsSurvive(values);
    } else {
      FieldsAreWords(JoinList(values));
    }
  }

  /** A list as it comes back from its column. */
  function Stored(values: seq<string>): (r: seq<string>)
    ensures AllWords(r)
    ensures r == values <==> AllWords(values)
  {
    RoundTripIff(values);
    SplitIsFields(JoinList(values));
    FieldsAreWords(JoinList(values));
    SplitList(JoinList(values))
  }

  /** Splitting at a white space: nothing but the words on both sides is found, in their order. */
  lemma {:induction false} FieldsSplit(a: string, c: char, b: string)
    requires IsSpace(c)
    ensures Fields(a + [c] + b) == Fields(a) + Fields(b)
    decreases |a|
  {
    var s := a + [c] + b;
    if a == "" {
      assert s[1..] == b;
    } else if IsSpace(a[0]) {
      assert s[1..] == a[1..] + [c] + b;
      FieldsSplit(a[1..], c, b);
    } else {
      var n := WordLength(a);
      assert forall i | 0 <= i < n :: s[i] == a[i];
      assert n < |a| ==> s[n] == a[n];
      assert n == |a| ==> s[n] == c;
      WordLengthIs(s, n);
      assert s[..n] == a[..n] && s[n..] == a[n..] + [c] + b;
      FieldsSplit(a[n..], c, b);
    }
  }

  /** With FieldsSplit, these two cases determine the words of every text. */
  lemma FieldsOfOne(word: string)
    requires forall c | c in word :: !IsSpace(c)
    ensures Fields(word) == if word == "" then [] else [word]
  {
    if word != "" {
      assert forall i | 0 <= i < |word| :: word[i] in word;
      WordLengthIs(word, |word|);
      assert word[|word|..] == "" && word[..|word|] == word;
    }
  }

  /** The words of the values, one value after the other. */
  function AllFields(values: seq<string>): seq<string> {
    if values == [] then [] else Fields(values[0]) + AllFields(values[1..])
  }

  /** Whatever the values hold, their words come back in order. */
  lemma {:induction false} StoredIsFields(values: seq<string>)
    ensures Stored(values) == AllFields(values)
  {
    SplitIsFields(JoinList(values));
    if values != [] {
      var rest := values[1..];
      StoredIsFields(rest);
      SplitIsFields(JoinList(rest));
      if rest == [] {
        assert AllFields(rest) == [] && Fields(values[0]) + [] == Fields(values[0]);
      } else {
        FieldsSplit(values[0], ' ', JoinList(rest));
      }
    }
  }

  /** A resource indicator with a blank, which the configuration check of resources does not refuse, comes back as two. */
  lemma BlankResourceIsSplit()
    ensures SplitList(JoinList(["urn:a b"])) == ["urn:a", "b"]
  {
    var values := ["urn:a", "b"];
    assert IsWord("urn:a") && IsWord("b");
    WordsSurvive(values);
    assert values[1..] == ["b"];
    assert JoinList(values) == "urn:a" + " " + "b" == "urn:a b";
    assert JoinList(["urn:a b"]) == "urn:a b";
    SplitIsFields("urn:a b");
  }
}
