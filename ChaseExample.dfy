/**
 * The forward-chaining driver's example: six facts over the predicate
 * test/5, and the pattern test(X, 11, 13, 11, 1) (the head of its first
 * rule) asked as a query with answer variable X.
 */
module ChaseExample {
  import opened Terms
  import opened Substitutions
  import opened Homomorphism

  const XsdInteger := Iri("http://www.w3.org/2001/XMLSchema#", "integer")
  const TestPred := Predicate(NameId("test"), 5)
  const X := Variable(NameId("X"))
  const F1 := Constant(NameId("f1"))
  const F2 := Constant(NameId("f2"))

  function Num(n: string): Term {
    Literal(n, XsdInteger)
  }

  function Test(t0: Term, t1: string, t2: string, t3: string, t4: string): Atom {
    Atom(TestPred, [t0, Num(t1), Num(t2), Num(t3), Num(t4)])
  }

  function ExampleFacts(): set<Atom> {
    { Test(F1, "12", "13", "12", "1"), Test(F1, "12", "13", "1", "2"), Test(F1, "12", "13", "2", "13"),
      Test(F2, "11", "13", "11", "1"), Test(F2, "11", "13", "1", "2"), Test(F2, "11", "13", "2", "13") }
  }

  function PatternQuery(): ConjunctiveQuery {
    ConjunctiveQuery("", [Test(X, "11", "13", "11", "1")], [X])
  }

  lemma PatternVariables()
    ensures VariableSet(PatternQuery().atoms) == {X}
  {
    var body := PatternQuery().atoms[0];
    assert forall t :: t in body.terms && t.Variable? ==> t == X;
    assert body.terms[0] == X;
  }

  /** The only homomorphism of the pattern into the facts sends X to f2. */
  lemma PatternHomomorphism(h: Substitution)
    requires IsHomomorphismOf(PatternQuery().atoms, ExampleFacts(), h)
    ensures h == map[X := F2]
  {
    PatternVariables();
    var body := PatternQuery().atoms[0];
    var image := ApplyAtom(h, body);
    assert image in ExampleFacts();
    assert image.terms[1] == Num("11") && image.terms[3] == Num("11");
    assert image == Test(F2, "11", "13", "11", "1");
    assert h[X] == image.terms[0];
  }

  /** The pattern matches one fact only, so the query has the single answer X -> f2, reported once. */
  lemma PatternAnswers(domain: seq<Term>)
    requires IsTermEnumeration(ExampleFacts(), domain)
    ensures Answers(PatternQuery(), ExampleFacts(), domain) == [map[X := F2]]
  {
    assert forall h :: IsHomomorphismOf(PatternQuery().atoms, ExampleFacts(), h) ==> h == map[X := F2] by {
      forall h | IsHomomorphismOf(PatternQuery().atoms, ExampleFacts(), h)
        ensures h == map[X := F2]
      {
        PatternHomomorphism(h);
      }
    }
    F2IsHomomorphism();
    UniqueHomomorphismAnswers(PatternQuery(), ExampleFacts(), domain, map[X := F2]);
    ProjectOwnKeys(map[X := F2], PatternQuery().answerVariables);
  }

  /** X -> f2 maps the pattern onto the fact test(f2, 11, 13, 11, 1). */
  lemma F2IsHomomorphism()
    ensures IsHomomorphismOf(PatternQuery().atoms, ExampleFacts(), map[X := F2])
  {
    PatternVariables();
    assert ApplyAtom(map[X := F2], PatternQuery().atoms[0]) == Test(F2, "11", "13", "11", "1");
  }
}
