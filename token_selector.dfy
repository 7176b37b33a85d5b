/** The token dropdown (TokenSelector.tsx): the list it shows is the
    catalog filtered by a case-insensitive substring search over name and
    symbol, and its own state is whether it is open and the search text.
    Letter case is ASCII only (`toLowerCase` on other scripts is not
    modelled); closing on a click outside the dropdown is not modelled. */
module TokenSelector {
  import opened Types

  predicate IsUpper(c: char) {
    'A' <= c <= 'Z'
  }

  function LowerChar(c: char): char {
    if IsUpper(c) then (c as int + 32) as char else c
  }

  /** The same character, or the same ASCII letter in the other case. */
  predicate SameUpToCase(a: char, b: char) {
    a == b || (IsUpper(a) && b as int == a as int + 32) || (IsUpper(b) && a as int == b as int + 32)
  }

  /** Two strings that differ at most in the case of ASCII letters. */
  predicate EqualIgnoringCase(a: string, b: string) {
    |a| == |b| && forall i :: 0 <= i < |a| ==> SameUpToCase(a[i], b[i])
  }

  /** `toLowerCase` on ASCII letters: the same text up to letter case, with
      no upper-case letter left. */
  function ToLower(s: string): (r: string)
    ensures EqualIgnoringCase(s, r)
    ensures forall i :: 0 <= i < |r| ==> !IsUpper(r[i])
  {
    seq(|s|, i requires 0 <= i < |s| => LowerChar(s[i]))
  }

  /** Strings equal up to letter case lower-case to the same string. */
  lemma CaseVariantsLowerAlike(a: string, b: string)
    requires EqualIgnoringCase(a, b)
    ensures ToLower(a) == ToLower(b)
  {
    assert forall i :: 0 <= i < |a| ==> ToLower(a)[i] == LowerChar(a[i]) == LowerChar(b[i]) == ToLower(b)[i];
  }

  /** Lower-casing twice is lower-casing once. */
  lemma ToLowerIdempotent(s: string)
    ensures ToLower(ToLower(s)) == ToLower(s)
  {
  }

  predicate IsPrefix(p: string, s: string) {
    |p| <= |s| && s[..|p|] == p
  }

  /** `hay.includes(needle)`. */
  predicate Includes(hay: string, needle: string) {
    IsPrefix(needle, hay) || (hay != [] && Includes(hay[1..], needle))
  }

  /** `needle` occurs in `hay` starting at position `k`. */
  predicate OccursAt(hay: string, needle: string, k: int) {
    0 <= k <= |hay| - |needle| && hay[k..k + |needle|] == needle
  }

  /** `includes` finds the needle exactly when it occurs at some position. */
  lemma {:induction false} IncludesMeansOccurs(hay: string, needle: string)
    ensures Includes(hay, needle) <==> exists k :: OccursAt(hay, needle, k)
  {
    if IsPrefix(needle, hay) {
      assert OccursAt(hay, needle, 0);
    }
    if hay != [] {
      IncludesMeansOccurs(hay[1..], needle);
      if Includes(hay[1..], needle) {
        var k :| OccursAt(hay[1..], needle, k);
        assert hay[k + 1..k + 1 + |needle|] == hay[1..][k..k + |needle|];
        assert OccursAt(hay, needle, k + 1);
      }
      if exists k :: OccursAt(hay, needle, k) {
        var k :| OccursAt(hay, needle, k);
        if k > 0 {
          assert hay[1..][k - 1..k - 1 + |needle|] == hay[k..k + |needle|];
          assert OccursAt(hay[1..], needle, k - 1);
        }
      }
    } else {
      if exists k :: OccursAt(hay, needle, k) {
        var k :| OccursAt(hay, needle, k);
        assert k == 0;
      }
    }
  }

  /** The token's lower-cased name or symbol contains the lower-cased query. */
  predicate MatchesQuery(t: Token, query: string) {
    Includes(ToLower(t.name), ToLower(query)) || Includes(ToLower(t.symbol), ToLower(query))
  }

  /** `a` is `b` with some elements left out, the rest in their order. */
  predicate IsSubsequence<T(==)>(a: seq<T>, b: seq<T>) {
    if a == [] then true
    else if b == [] then false
    else if a[0] == b[0] then IsSubsequence(a[1..], b[1..])
    else IsSubsequence(a, b[1..])
  }

  lemma {:induction false} SubsequenceDropFirst<T>(a: seq<T>, b: seq<T>)
    requires a != [] && IsSubsequence(a, b)
    ensures IsSubsequence(a[1..], b)
  {
    if a[0] == b[0] {
      SubsequenceOfTail(a[1..], b);
    } else {
      SubsequenceDropFirst(a, b[1..]);
      SubsequenceOfTail(a[1..], b);
    }
  }

  lemma {:induction false} SubsequenceOfTail<T>(a: seq<T>, b: seq<T>)
    requires b != [] && IsSubsequence(a, b[1..])
    ensures IsSubsequence(a, b)
  {
    if a != [] && a[0] == b[0] {
      SubsequenceDropFirst(a, b[1..]);
    }
  }

  /** `filteredTokens`. */
  function FilterTokens(tokens: seq<Token>, query: string): (r: seq<Token>)
    ensures IsSubsequence(r, tokens)
    ensures forall t :: t in r <==> t in tokens && MatchesQuery(t, query)
    ensures forall t :: multiset(r)[t] == if MatchesQuery(t, query) then multiset(tokens)[t] else 0
  {
    if tokens == [] then []
    else
      var rest := FilterTokens(tokens[1..], query);
      assert tokens == [tokens[0]] + tokens[1..];
      assert forall t :: t in tokens <==> t == tokens[0] || t in tokens[1..];
      assert multiset(tokens) == multiset{tokens[0]} + multiset(tokens[1..]);
      if MatchesQuery(tokens[0], query) then
        [tokens[0]] + rest
      else
        SubsequenceOfTail(rest, tokens);
        rest
  }

  /** The empty query keeps every token. */
  lemma {:induction false} EmptyQueryKeepsAll(tokens: seq<Token>)
    ensures FilterTokens(tokens, "") == tokens
  {
    if tokens != [] {
      assert IsPrefix(ToLower(""), ToLower(tokens[0].name));
      EmptyQueryKeepsAll(tokens[1..]);
    }
  }

  /** Queries that differ only in letter case give the same list. */
  lemma {:induction false} CaseInsensitiveQuery(tokens: seq<Token>, q1: string, q2: string)
    requires ToLower(q1) == ToLower(q2)
    ensures FilterTokens(tokens, q1) == FilterTokens(tokens, q2)
  {
    if tokens != [] {
      CaseInsensitiveQuery(tokens[1..], q1, q2);
    }
  }

  /** The open flag and the search text of one dropdown. */
  class Dropdown {
    var isOpen: bool
    var searchQuery: string

    constructor ()
      ensures !isOpen && searchQuery == ""
    {
      isOpen := false;
      searchQuery := "";
    }

    /** The tokens listed while the dropdown is open. */
    function FilteredTokens(tokens: seq<Token>): seq<Token>
      reads this
    {
      FilterTokens(tokens, searchQuery)
    }

    /** The toggle button flips the open flag and nothing else. */
    method Toggle()
      modifies this
      ensures isOpen == !old(isOpen)
      ensures searchQuery == old(searchQuery)
    {
      isOpen := !isOpen;
    }

    /** Typing in the search box. */
    method SetSearchQuery(text: string)
      modifies this
      ensures searchQuery == text
      ensures isOpen == old(isOpen)
    {
      searchQuery := text;
    }

    /** Clicking a listed token: the token is handed to `onSelectToken`,
        the dropdown closes and the search is reset. */
    method Choose(tokens: seq<Token>, token: Token) returns (selected: Token)
      requires isOpen && token in FilteredTokens(tokens)
      modifies this
      ensures selected == token
      ensures !isOpen && searchQuery == ""
      ensures FilteredTokens(tokens) == tokens
    {
      selected := token;
      isOpen := false;
      searchQuery := "";
      EmptyQueryKeepsAll(tokens);
    }
  }
}
