/**
 * `search_querry` of main/views.py: a search text becomes a Django Q filter on one lookup.
 * Alternatives separated by '/' are OR-ed; the whitespace-separated terms of an alternative are
 * AND-ed.
 */
module Search {
  import opened Text

  /** A Q object over one lookup (such as `num__contains`): empty, one term, or a combination. */
  datatype Query = Empty | Lookup(term: string) | And(left: Query, right: Query) | Or(left: Query, right: Query)

  /** `p & q`: an empty operand is dropped and the other one kept. */
  function Conj(p: Query, q: Query): Query
  {
    if q.Empty? then p else if p.Empty? then q else And(p, q)
  }

  /** `p | q`: an empty operand is dropped and the other one kept. */
  function Disj(p: Query, q: Query): Query
  {
    if q.Empty? then p else if p.Empty? then q else Or(p, q)
  }

  /**
   * Whether a flight passes the filter, given which single-term lookups it satisfies; filtering
   * on an empty Q keeps every flight.
   */
  predicate Eval(q: Query, holds: string -> bool)
  {
    match q
    case Empty => true
    case Lookup(t) => holds(t)
    case And(l, r) => Eval(l, holds) && Eval(r, holds)
    case Or(l, r) => Eval(l, holds) || Eval(r, holds)
  }

  /** The inner loop: `Q()` and-ed with one lookup per term, left to right. */
  function AllOf(terms: seq<string>): Query
  {
    if |terms| == 0 then Empty else Conj(AllOf(terms[..|terms| - 1]), Lookup(terms[|terms| - 1]))
  }

  /** The outer loop: `Q()` or-ed with the query of each alternative, left to right. */
  function AnyOf(alternatives: seq<string>): Query
  {
    if |alternatives| == 0 then Empty
    else Disj(AnyOf(alternatives[..|alternatives| - 1]), AllOf(SplitWs(alternatives[|alternatives| - 1])))
  }

  function QueryOf(s: string): Query
  {
    AnyOf(SplitOn(s, '/'))
  }

  /** `search_querry(elem, str_search)`, the lookup being fixed by the caller. */
  method SearchQuery(s: string) returns (q: Query)
    ensures q == QueryOf(s)
  {
    q := Empty;
    var alternatives := SplitOn(s, '/');
    for i := 0 to |alternatives|
      invariant q == AnyOf(alternatives[..i])
    {
      var sub := Empty;
      var terms := SplitWs(alternatives[i]);
      for j := 0 to |terms|
        invariant sub == AllOf(terms[..j])
      {
        sub := Conj(sub, Lookup(terms[j]));
        assert terms[..j + 1][..j] == terms[..j];
      }
      assert terms[..|terms|] == terms;
      q := Disj(q, sub);
      assert alternatives[..i + 1][..i] == alternatives[..i];
    }
    assert alternatives[..|alternatives|] == alternatives;
  }

  // ---------------------------------------------------------------- what the filter means

  /** The terms of an alternative are AND-ed: the query is empty only without terms, else all must hold. */
  lemma {:induction false} AllOfMeaning(terms: seq<string>, holds: string -> bool)
    ensures AllOf(terms).Empty? <==> |terms| == 0
    ensures Eval(AllOf(terms), holds) <==> forall k | 0 <= k < |terms| :: holds(terms[k])
  {
    if |terms| > 0 {
      var init := terms[..|terms| - 1];
      AllOfMeaning(init, holds);
      assert forall k | 0 <= k < |init| :: init[k] == terms[k];
    }
  }

  /** Some non-empty alternative has all its terms holding. */
  predicate SomeAlternative(alternatives: seq<string>, holds: string -> bool)
  {
    exists i | 0 <= i < |alternatives| ::
      |SplitWs(alternatives[i])| > 0 && forall k | 0 <= k < |SplitWs(alternatives[i])| :: holds(SplitWs(alternatives[i])[k])
  }

  /** No alternative holds a term. */
  predicate NoTerms(alternatives: seq<string>)
  {
    forall i | 0 <= i < |alternatives| :: |SplitWs(alternatives[i])| == 0
  }

  /**
   * The alternatives are OR-ed, an alternative without terms being dropped: the query is empty
   * only when no alternative has a term, and otherwise holds when some alternative with terms
   * has all of them holding.
   */
  lemma {:induction false} AnyOfMeaning(alternatives: seq<string>, holds: string -> bool)
    ensures AnyOf(alternatives).Empty? <==> NoTerms(alternatives)
    ensures !NoTerms(alternatives) ==> (Eval(AnyOf(alternatives), holds) <==> SomeAlternative(alternatives, holds))
  {
    if |alternatives| > 0 {
      var n := |alternatives| - 1;
      var init, last := alternatives[..n], alternatives[n];
      AnyOfMeaning(init, holds);
      AllOfMeaning(SplitWs(last), holds);
      assert forall i | 0 <= i < n :: init[i] == alternatives[i];
      if SomeAlternative(alternatives, holds) && !SomeAlternative(init, holds) {
        var i :| 0 <= i < |alternatives| && |SplitWs(alternatives[i])| > 0
          && forall k | 0 <= k < |SplitWs(alternatives[i])| :: holds(SplitWs(alternatives[i])[k]);
        assert i == n;
      }
      if SomeAlternative(init, holds) {
        var i :| 0 <= i < n && |SplitWs(init[i])| > 0 && forall k | 0 <= k < |SplitWs(init[i])| :: holds(SplitWs(init[i])[k]);
        assert alternatives[i] == init[i];
      }
    }
  }

  /**
   * A search text keeps every flight when it has no term at all; otherwise it keeps a flight
   * exactly when, for some '/'-separated alternative with terms, every term of it holds.
   */
  lemma SearchMeaning(s: string, holds: string -> bool)
    ensures Eval(QueryOf(s), holds) <==> NoTerms(SplitOn(s, '/')) || SomeAlternative(SplitOn(s, '/'), holds)
  {
    AnyOfMeaning(SplitOn(s, '/'), holds);
  }

  /** An empty text matches everything, a trailing '/' adds nothing, and '/' binds looser than a space. */
  lemma SearchExamples()
    ensures QueryOf("") == Empty
    ensures QueryOf("x/") == Lookup("x")
    ensures QueryOf("a b/c") == Or(And(Lookup("a"), Lookup("b")), Lookup("c"))
  {
    SplitOnExamples();
    SplitWsExamples();
    assert ["x", ""][..1] == ["x"];
    assert ["x"][..0] == [];
    assert ["a b", "c"][..1] == ["a b"];
    assert ["a", "b"][..1] == ["a"];
  }

  lemma SplitOnExamples()
    ensures SplitOn("x/", '/') == ["x", ""]
    ensures SplitOn("a b/c", '/') == ["a b", "c"]
  {
    assert SplitOn("/", '/') == ["", ""] by { assert "/"[1..] == ""; }
    assert "x/"[1..] == "/"; assert ["", ""][1..] == [""]; assert ['x'] + "" == "x";
    assert SplitOn("c", '/') == ["c"] by { assert "c"[1..] == ""; assert [""][1..] == []; assert ['c'] + "" == "c"; }
    assert SplitOn("/c", '/') == ["", "c"] by { assert "/c"[1..] == "c"; }
    assert SplitOn("b/c", '/') == ["b", "c"] by { assert "b/c"[1..] == "/c"; assert ["", "c"][1..] == ["c"]; assert ['b'] + "" == "b"; }
    assert SplitOn(" b/c", '/') == [" b", "c"] by { assert " b/c"[1..] == "b/c"; assert ["b", "c"][1..] == ["c"]; assert [' '] + "b" == " b"; }
    assert "a b/c"[1..] == " b/c"; assert [" b", "c"][1..] == ["c"]; assert ['a'] + " b" == "a b";
  }

  lemma SplitWsExamples()
    ensures SplitWs("x") == ["x"] && SplitWs("c") == ["c"]
    ensures SplitWs("a b") == ["a", "b"]
  {
    OneLetterWord('x');
    OneLetterWord('c');
    OneLetterWord('b');
    assert SplitWs(" b") == ["b"] by { assert " b"[1..] == "b"; }
    assert WordLen("a b") == 1 by { assert "a b"[1..] == " b"; }
    assert "a b"[..1] == "a" && "a b"[1..] == " b";
  }

  lemma OneLetterWord(c: char)
    requires !IsSpace(c)
    ensures SplitWs([c]) == [[c]]
  {
    assert WordLen([c]) == 1 by { assert [c][1..] == ""; }
    assert [c][..1] == [c] && [c][1..] == "";
  }
}
