/**
 * Substitutions: finite maps from variables to terms. Applying one replaces
 * every bound term by its image and leaves every other term untouched.
 */
module Substitutions {
  import opened Terms

  /**
   * The type admits any term as a key, but every substitution the model
   * builds binds variables only: a homomorphism binds exactly the pattern's
   * variables (Homomorphism.IsHomomorphismOf), the search binds only the
   * ordered variables (Homomorphism.SearchSound), and an answer binds only
   * the query's answer variables (Project).
   */
  type Substitution = map<Term, Term>

  /** The image of a term: its binding if it has one, the term itself otherwise. */
  function ApplyTerm(s: Substitution, t: Term): Term {
    if t in s then s[t] else t
  }

  /** The image of an atom: same predicate, every term replaced by its image. */
  function ApplyAtom(s: Substitution, a: Atom): (b: Atom)
    ensures b.pred == a.pred && |b.terms| == |a.terms|
    ensures forall i :: 0 <= i < |a.terms| ==> b.terms[i] == ApplyTerm(s, a.terms[i])
  {
    Atom(a.pred, seq(|a.terms|, i requires 0 <= i < |a.terms| => ApplyTerm(s, a.terms[i])))
  }

  /** Two substitutions that give every term of an atom the same image give the atom the same image. */
  lemma ApplyAtomAgree(s1: Substitution, s2: Substitution, a: Atom)
    requires forall t :: t in a.terms ==> ApplyTerm(s1, t) == ApplyTerm(s2, t)
    ensures ApplyAtom(s1, a) == ApplyAtom(s2, a)
  {
    assert ApplyAtom(s1, a).terms == ApplyAtom(s2, a).terms;
  }

  /** An atom with no bound term is its own image. */
  lemma ApplyAtomUnbound(s: Substitution, a: Atom)
    requires forall t :: t in a.terms ==> t !in s
    ensures ApplyAtom(s, a) == a
  {
    assert ApplyAtom(s, a).terms == a.terms;
  }

  /**
   * The restriction of s to the given variables: each of them is mapped to
   * its image under s (itself when s leaves it unbound).
   */
  function Project(s: Substitution, vars: seq<Term>): (p: Substitution)
    ensures forall v :: v in p <==> v in vars
    ensures forall v :: v in vars ==> p[v] == ApplyTerm(s, v)
  {
    map v | v in vars :: ApplyTerm(s, v)
  }

  /** Restricting a substitution to exactly the variables it binds leaves it unchanged. */
  lemma ProjectOwnKeys(s: Substitution, vars: seq<Term>)
    requires forall v :: v in s <==> v in vars
    ensures Project(s, vars) == s
  {
  }
}
