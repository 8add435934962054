/**
 * The shared vocabulary of the reasoner: identifiers, terms, predicates,
 * atoms, conjunctive queries and rules, with the few sequence helpers that
 * both the homomorphism solver and the RuleML writer use.
 */
module Terms {

  /** An IRI split, as the store keeps it, into a namespace prefix and a local name. */
  datatype Iri = Iri(prefix: string, localname: string)

  /** The printed form of an IRI: prefix followed by local name. */
  function IriString(i: Iri): string {
    i.prefix + i.localname
  }

  /** The identifier of a term or predicate: either an IRI or a plain name. */
  datatype Identifier = UriId(uri: Iri) | NameId(name: string)

  function IdentifierString(id: Identifier): string {
    match id
    case UriId(u) => IriString(u)
    case NameId(n) => n
  }

  /** Terms are compared structurally: two variables are equal iff their identifiers are. */
  datatype Term =
    | Variable(id: Identifier)
    | Constant(id: Identifier)
    | Literal(value: string, dataType: Iri)

  datatype Predicate = Predicate(id: Identifier, arity: nat)

  /** A predicate applied to an ordered list of terms. */
  datatype Atom = Atom(pred: Predicate, terms: seq<Term>)

  /** A pattern of atoms, the answer variables whose bindings are reported, and a label. */
  datatype ConjunctiveQuery = ConjunctiveQuery(labelText: string, atoms: seq<Atom>, answerVariables: seq<Term>)

  /** A rule: body (antecedent) and head (consequent). */
  datatype Rule = Rule(labelText: string, body: seq<Atom>, head: seq<Atom>)

  predicate Distinct<T(==)>(s: seq<T>) {
    forall i, j :: 0 <= i < j < |s| ==> s[i] != s[j]
  }

  /** The set of variables occurring in a collection of atoms. */
  function VariableSet(atoms: seq<Atom>): set<Term> {
    set a, t | a in atoms && t in a.terms && t.Variable? :: t
  }

  /**
   * The variables of a collection of atoms, enumerated atom by atom and
   * term by term (repetitions kept): the enumeration of the atom set's
   * variable collection.
   */
  function VariablesIn(atoms: seq<Atom>): (vs: seq<Term>)
    ensures forall t :: t in vs <==> t in VariableSet(atoms)
  {
    if atoms == [] then []
    else
      var last := atoms[|atoms| - 1];
      assert atoms == atoms[..|atoms| - 1] + [last];
      VariablesIn(atoms[..|atoms| - 1]) + VariablesOfTerms(last.terms)
  }

  function VariablesOfTerms(ts: seq<Term>): (vs: seq<Term>)
    ensures forall t :: t in vs <==> t in ts && t.Variable?
  {
    if ts == [] then []
    else
      assert ts == ts[..|ts| - 1] + [ts[|ts| - 1]];
      VariablesOfTerms(ts[..|ts| - 1]) + (if ts[|ts| - 1].Variable? then [ts[|ts| - 1]] else [])
  }

  /**
   * The elements of xs without repetition, each kept at its first
   * occurrence. This is what `order` computes from a variable collection.
   */
  function FirstOccurrences<T(==,!new)>(xs: seq<T>): (r: seq<T>)
    ensures Distinct(r)
    ensures forall x :: x in r <==> x in xs
  {
    if xs == [] then []
    else
      var r' := FirstOccurrences(xs[..|xs| - 1]);
      var x := xs[|xs| - 1];
      assert xs == xs[..|xs| - 1] + [x];
      if x in r' then r' else r' + [x]
  }

  /** The position of the first occurrence of x in xs. */
  function FirstIndex<T(==)>(xs: seq<T>, x: T): (k: nat)
    requires x in xs
    ensures k < |xs| && xs[k] == x && x !in xs[..k]
  {
    if xs[0] == x then 0
    else
      assert xs == [xs[0]] + xs[1..];
      1 + FirstIndex(xs[1..], x)
  }

  lemma {:induction false} FirstIndexOfPrefix<T>(xs: seq<T>, n: nat, x: T)
    requires n <= |xs| && x in xs[..n]
    ensures FirstIndex(xs, x) == FirstIndex(xs[..n], x)
  {
    assert xs[..n][0] == xs[0];
    if xs[0] != x {
      assert xs[..n] == [xs[0]] + xs[1..][..n - 1];
      assert xs[..n][1..] == xs[1..][..n - 1];
      FirstIndexOfPrefix(xs[1..], n - 1, x);
    }
  }

  /**
   * FirstOccurrences keeps first-occurrence order: an element listed
   * earlier first occurs earlier in the input.
   */
  lemma {:induction false} FirstOccurrencesOrder<T(!new)>(xs: seq<T>, i: nat, j: nat)
    requires i < j < |FirstOccurrences(xs)|
    ensures FirstIndex(xs, FirstOccurrences(xs)[i]) < FirstIndex(xs, FirstOccurrences(xs)[j])
    decreases |xs|
  {
    var pre := xs[..|xs| - 1];
    var r' := FirstOccurrences(pre);
    var x := xs[|xs| - 1];
    var r := FirstOccurrences(xs);
    assert xs == pre + [x];
    assert pre == xs[..|xs| - 1];
    assert r[i] in pre by {
      if x !in r' && i == |r'| {
        assert false;
      }
      assert r[i] == r'[i];
    }
    FirstIndexOfPrefix(xs, |xs| - 1, r[i]);
    if x !in r' && j == |r'| {
      // r[j] == x is new: its first occurrence is the last position.
      assert r[j] == x && x !in pre;
      assert FirstIndex(xs, x) == |xs| - 1;
    } else {
      assert r[i] == r'[i] && r[j] == r'[j];
      FirstOccurrencesOrder(pre, i, j);
      FirstIndexOfPrefix(xs, |xs| - 1, r[j]);
    }
  }

  /** The elements of xs that are not in ys, in the order of xs. */
  function Minus<T(==,!new)>(xs: seq<T>, ys: seq<T>): (r: seq<T>)
    ensures forall x :: x in r <==> x in xs && x !in ys
    ensures Distinct(xs) ==> Distinct(r)
  {
    if xs == [] then []
    else
      assert xs == [xs[0]] + xs[1..];
      (if xs[0] in ys then [] else [xs[0]]) + Minus(xs[1..], ys)
  }
}
