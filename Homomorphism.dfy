/**
 * The backtracking homomorphism solver.
 *
 * The variables of a pattern are put in a fixed order, the pattern's atoms
 * are sorted into rank buckets (bucket k holds the atoms whose last ordered
 * variable is the k-th one; bucket 0 the atoms with none), and a depth-first
 * search binds the k-th variable to every term of the facts in turn, checking
 * only bucket k at depth k. The search is specified by the function Search;
 * the methods that mirror the solver are proved equal to it, and Search is
 * proved sound and complete with respect to "every atom of the pattern,
 * under the substitution, is a fact".
 */
module Homomorphism {
  import opened Terms
  import opened Substitutions

  // ---------------------------------------------------------------------
  // The facts and what a homomorphism is
  // ---------------------------------------------------------------------

  /** The term domain of a fact collection: every term occurring in a fact. */
  function TermsOf(facts: set<Atom>): set<Term> {
    set a, t | a in facts && t in a.terms :: t
  }

  /** domain enumerates the fact collection's term set, each term once. */
  ghost predicate IsTermEnumeration(facts: set<Atom>, domain: seq<Term>) {
    Distinct(domain) && forall t :: t in domain <==> t in TermsOf(facts)
  }

  /** Under s, every one of the atoms is a fact. */
  predicate AllIn(atoms: seq<Atom>, facts: set<Atom>, s: Substitution) {
    forall a :: a in atoms ==> ApplyAtom(s, a) in facts
  }

  /** h binds exactly the variables of the pattern and sends each pattern atom to a fact. */
  ghost predicate IsHomomorphismOf(atoms: seq<Atom>, facts: set<Atom>, h: Substitution) {
    (forall t :: t in h <==> t in VariableSet(atoms)) && AllIn(atoms, facts, h)
  }

  /** A homomorphism only uses terms of the facts: every binding is in the term domain. */
  lemma HomomorphismImagesAreFactTerms(atoms: seq<Atom>, facts: set<Atom>, h: Substitution)
    requires IsHomomorphismOf(atoms, facts, h)
    ensures forall v :: v in h ==> h[v] in TermsOf(facts)
  {
    forall v | v in h
      ensures h[v] in TermsOf(facts)
    {
      assert v in VariableSet(atoms);
      var a :| a in atoms && v in a.terms;
      var i :| 0 <= i < |a.terms| && a.terms[i] == v;
      var b := ApplyAtom(h, a);
      assert b in facts && b.terms[i] == h[v] && b.terms[i] in b.terms;
    }
  }

  // ---------------------------------------------------------------------
  // Variable order and rank buckets
  // ---------------------------------------------------------------------

  /** The position of t among the ordered variables, or -1 when it is not one of them. */
  function IndexOf(vs: seq<Term>, t: Term): (k: int)
    ensures -1 <= k < |vs|
    ensures k == -1 <==> t !in vs
    ensures 0 <= k ==> vs[k] == t && t !in vs[..k]
  {
    if vs == [] then -1
    else if vs[0] == t then 0
    else
      assert vs == [vs[0]] + vs[1..];
      var k := IndexOf(vs[1..], t);
      if k == -1 then -1 else k + 1
  }

  /**
   * The rank of a list of terms: the largest (position + 1) of its terms
   * among the ordered variables, 0 when none of them is an ordered variable.
   */
  function TermsRank(ts: seq<Term>, vs: seq<Term>): (r: nat)
    ensures r <= |vs|
    ensures forall t :: t in ts ==> IndexOf(vs, t) < r
    ensures 0 < r ==> vs[r - 1] in ts
  {
    if ts == [] then 0
    else
      var last := ts[|ts| - 1];
      assert ts == ts[..|ts| - 1] + [last];
      var r' := TermsRank(ts[..|ts| - 1], vs);
      var tmp := IndexOf(vs, last) + 1;
      if r' < tmp then tmp else r'
  }

  /** The atoms of rank k, in their order in the pattern. */
  function Bucket(atoms: seq<Atom>, vs: seq<Term>, k: nat): (b: seq<Atom>)
    ensures forall a :: a in b <==> a in atoms && TermsRank(a.terms, vs) == k
  {
    if atoms == [] then []
    else
      var last := atoms[|atoms| - 1];
      assert atoms == atoms[..|atoms| - 1] + [last];
      Bucket(atoms[..|atoms| - 1], vs, k) + (if TermsRank(last.terms, vs) == k then [last] else [])
  }

  /** The |vs| + 1 rank buckets of a pattern. */
  function Buckets(atoms: seq<Atom>, vs: seq<Term>): (ranked: seq<seq<Atom>>)
    ensures |ranked| == |vs| + 1
    ensures forall k :: 0 <= k < |ranked| ==> ranked[k] == Bucket(atoms, vs, k)
  {
    seq(|vs| + 1, k requires 0 <= k <= |vs| => Bucket(atoms, vs, k))
  }

  /**
   * Every atom of the pattern lands in exactly one bucket, as often as it
   * occurs in the pattern: in bucket k iff its rank is k.
   */
  lemma {:induction false} BucketPartition(atoms: seq<Atom>, vs: seq<Term>, k: nat, a: Atom)
    ensures multiset(Bucket(atoms, vs, k))[a] == if TermsRank(a.terms, vs) == k then multiset(atoms)[a] else 0
  {
    if atoms != [] {
      var pre := atoms[..|atoms| - 1];
      var last := atoms[|atoms| - 1];
      assert atoms == pre + [last];
      BucketPartition(pre, vs, k, a);
      assert multiset(atoms) == multiset(pre) + multiset{last};
    }
  }

  /** Bucket k only holds atoms whose ordered variables are among the first k. */
  ghost predicate RankedBy(ranked: seq<seq<Atom>>, vs: seq<Term>) {
    && |ranked| == |vs| + 1
    && forall k, a, t :: 0 <= k < |ranked| && a in ranked[k] && t in a.terms ==> IndexOf(vs, t) < k
  }

  lemma BucketsRanked(atoms: seq<Atom>, vs: seq<Term>)
    ensures RankedBy(Buckets(atoms, vs), vs)
  {
  }

  /**
   * Once the first k ordered variables are bound, every variable of every
   * atom in buckets 0..k is bound: those atoms are fully instantiated.
   */
  lemma BoundPrefixInstantiatesBuckets(atoms: seq<Atom>, vs: seq<Term>, k: nat, s: Substitution)
    requires forall t :: t in VariableSet(atoms) ==> t in vs
    requires k <= |vs| && forall i :: 0 <= i < k ==> vs[i] in s
    ensures forall j, a, t :: 0 <= j <= k && a in Bucket(atoms, vs, j) && t in a.terms && t.Variable? ==> t in s
  {
    forall j, a, t | 0 <= j <= k && a in Bucket(atoms, vs, j) && t in a.terms && t.Variable?
      ensures t in s
    {
      assert t in VariableSet(atoms);
      var i := IndexOf(vs, t);
      assert 0 <= i < j;
    }
  }

  // ---------------------------------------------------------------------
  // The search, as a specification
  // ---------------------------------------------------------------------

  /**
   * The leaves reached by the search from substitution s with variables
   * vars left to bind, at depth rank: each leaf is the full substitution.
   */
  function Search(ranked: seq<seq<Atom>>, facts: set<Atom>, domain: seq<Term>, s: Substitution,
                  vars: seq<Term>, rank: nat): seq<Substitution>
    requires 1 <= rank && rank + |vars| == |ranked|
    decreases |vars|, |domain| + 1
  {
    if vars == [] then [s]
    else Branches(ranked, facts, domain, s, vars, rank, |domain|)
  }

  /**
   * The leaves reached through the first n candidates for vars[0]: each
   * candidate extends a copy of s, and only the candidates under which
   * bucket rank holds are explored further.
   */
  function Branches(ranked: seq<seq<Atom>>, facts: set<Atom>, domain: seq<Term>, s: Substitution,
                    vars: seq<Term>, rank: nat, n: nat): seq<Substitution>
    requires 1 <= rank && rank + |vars| == |ranked| && vars != [] && n <= |domain|
    decreases |vars|, n
  {
    if n == 0 then []
    else
      var s' := s[vars[0] := domain[n - 1]];
      Branches(ranked, facts, domain, s, vars, rank, n - 1)
      + (if AllIn(ranked[rank], facts, s') then Search(ranked, facts, domain, s', vars[1..], rank + 1) else [])
  }

  /** Each substitution restricted to the answer variables. */
  function Projected(subs: seq<Substitution>, answer: seq<Term>): (r: seq<Substitution>)
    ensures |r| == |subs|
    ensures forall i :: 0 <= i < |subs| ==> r[i] == Project(subs[i], answer)
  {
    seq(|subs|, i requires 0 <= i < |subs| => Project(subs[i], answer))
  }

  lemma ProjectedAppend(a: seq<Substitution>, b: seq<Substitution>, answer: seq<Term>)
    ensures Projected(a + b, answer) == Projected(a, answer) + Projected(b, answer)
  {
  }

  /** The search state at depth rank: the first rank - 1 ordered variables are bound, the rest are left. */
  ghost predicate SearchState(ranked: seq<seq<Atom>>, allVars: seq<Term>, s: Substitution, vars: seq<Term>, rank: nat) {
    && Distinct(allVars)
    && RankedBy(ranked, allVars)
    && 1 <= rank <= |allVars| + 1
    && vars == allVars[rank - 1..]
    && forall t :: t in s <==> t in allVars[..rank - 1]
  }

  lemma SearchStateStep(ranked: seq<seq<Atom>>, allVars: seq<Term>, s: Substitution, vars: seq<Term>, rank: nat, d: Term)
    requires SearchState(ranked, allVars, s, vars, rank) && vars != []
    ensures SearchState(ranked, allVars, s[vars[0] := d], vars[1..], rank + 1)
    ensures vars[0] !in s
  {
    assert allVars[..rank] == allVars[..rank - 1] + [vars[0]];
    assert vars[1..] == allVars[rank..];
    assert vars[0] == allVars[rank - 1];
    assert vars[0] !in allVars[..rank - 1] by {
      var prefix := allVars[..rank - 1];
      assert forall i :: 0 <= i < |prefix| ==> prefix[i] == allVars[i];
    }
  }

  /**
   * Bucket rank gets the same image under the substitution s' checked at
   * depth rank and under any substitution that binds all ordered variables
   * and agrees with s'.
   */
  lemma BucketAgrees(ranked: seq<seq<Atom>>, facts: set<Atom>, allVars: seq<Term>, s': Substitution,
                     rank: nat, r: Substitution)
    requires RankedBy(ranked, allVars) && rank < |ranked|
    requires forall t :: t in s' <==> t in allVars[..rank]
    requires forall t :: t in r <==> t in allVars
    requires forall t :: t in s' ==> r[t] == s'[t]
    ensures AllIn(ranked[rank], facts, s') <==> AllIn(ranked[rank], facts, r)
  {
    forall a | a in ranked[rank]
      ensures ApplyAtom(r, a) == ApplyAtom(s', a)
    {
      forall t | t in a.terms
        ensures ApplyTerm(r, t) == ApplyTerm(s', t)
      {
        if t in allVars {
          var i := IndexOf(allVars, t);
          assert i < rank;
          assert allVars[..rank][i] == t;
        }
      }
      ApplyAtomAgree(r, s', a);
    }
  }

  /**
   * Soundness of the search: every leaf binds exactly the ordered variables,
   * keeps the bindings it started from, takes the new ones from the domain,
   * and satisfies every bucket from depth rank on.
   */
  lemma {:induction false} SearchSound(ranked: seq<seq<Atom>>, facts: set<Atom>, domain: seq<Term>, allVars: seq<Term>,
                                       s: Substitution, vars: seq<Term>, rank: nat, r: Substitution)
    requires SearchState(ranked, allVars, s, vars, rank)
    requires r in Search(ranked, facts, domain, s, vars, rank)
    ensures forall t :: t in r <==> t in allVars
    ensures forall t :: t in s ==> t in r && r[t] == s[t]
    ensures forall v :: v in vars ==> r[v] in domain
    ensures forall k :: rank <= k < |ranked| ==> AllIn(ranked[k], facts, r)
    decreases |vars|, |domain| + 1
  {
    if vars == [] {
      assert allVars[..rank - 1] == allVars;
    } else {
      BranchesSound(ranked, facts, domain, allVars, s, vars, rank, |domain|, r);
    }
  }

  lemma {:induction false} BranchesSound(ranked: seq<seq<Atom>>, facts: set<Atom>, domain: seq<Term>, allVars: seq<Term>,
                                         s: Substitution, vars: seq<Term>, rank: nat, n: nat, r: Substitution)
    requires SearchState(ranked, allVars, s, vars, rank) && vars != [] && n <= |domain|
    requires r in Branches(ranked, facts, domain, s, vars, rank, n)
    ensures forall t :: t in r <==> t in allVars
    ensures forall t :: t in s ==> t in r && r[t] == s[t]
    ensures forall v :: v in vars ==> r[v] in domain
    ensures forall k :: rank <= k < |ranked| ==> AllIn(ranked[k], facts, r)
    decreases |vars|, n
  {
    assert n != 0;
    var s' := s[vars[0] := domain[n - 1]];
    var tail := if AllIn(ranked[rank], facts, s') then Search(ranked, facts, domain, s', vars[1..], rank + 1) else [];
    BranchesStep(ranked, facts, domain, s, vars, rank, n - 1);
    if r in Branches(ranked, facts, domain, s, vars, rank, n - 1) {
      BranchesSound(ranked, facts, domain, allVars, s, vars, rank, n - 1, r);
    } else {
      assert r in tail;
      ChildSound(ranked, facts, domain, allVars, s, vars, rank, domain[n - 1], r);
    }
  }

  /** A leaf below the candidate d for vars[0], reached because bucket rank holds under it. */
  lemma ChildSound(ranked: seq<seq<Atom>>, facts: set<Atom>, domain: seq<Term>, allVars: seq<Term>,
                   s: Substitution, vars: seq<Term>, rank: nat, d: Term, r: Substitution)
    requires SearchState(ranked, allVars, s, vars, rank) && vars != [] && d in domain
    requires rank + |vars| == |ranked|
    requires AllIn(ranked[rank], facts, s[vars[0] := d])
    requires r in Search(ranked, facts, domain, s[vars[0] := d], vars[1..], rank + 1)
    ensures forall t :: t in r <==> t in allVars
    ensures forall t :: t in s ==> t in r && r[t] == s[t]
    ensures forall v :: v in vars ==> r[v] in domain
    ensures forall k :: rank <= k < |ranked| ==> AllIn(ranked[k], facts, r)
    decreases |vars|, 0
  {
    var s' := s[vars[0] := d];
    SearchStateStep(ranked, allVars, s, vars, rank, d);
    SearchSound(ranked, facts, domain, allVars, s', vars[1..], rank + 1, r);
    BucketAgrees(ranked, facts, allVars, s', rank, r);
    assert vars == [vars[0]] + vars[1..];
  }

  /** The leaves through one more candidate. */
  lemma BranchesStep(ranked: seq<seq<Atom>>, facts: set<Atom>, domain: seq<Term>,
                     s: Substitution, vars: seq<Term>, rank: nat, i: nat)
    requires 1 <= rank && rank + |vars| == |ranked| && vars != [] && i < |domain|
    ensures Branches(ranked, facts, domain, s, vars, rank, i + 1)
         == Branches(ranked, facts, domain, s, vars, rank, i)
            + (if AllIn(ranked[rank], facts, s[vars[0] := domain[i]])
               then Search(ranked, facts, domain, s[vars[0] := domain[i]], vars[1..], rank + 1) else [])
  {
  }

  /** A leaf reached through the first n candidates binds vars[0] to one of them. */
  lemma {:induction false} BranchesFirstBinding(ranked: seq<seq<Atom>>, facts: set<Atom>, domain: seq<Term>, allVars: seq<Term>,
                                                s: Substitution, vars: seq<Term>, rank: nat, n: nat, r: Substitution)
    requires SearchState(ranked, allVars, s, vars, rank) && vars != [] && n <= |domain|
    requires r in Branches(ranked, facts, domain, s, vars, rank, n)
    ensures vars[0] in r && r[vars[0]] in domain[..n]
    decreases n
  {
    assert n != 0;
    var s' := s[vars[0] := domain[n - 1]];
    var tail := if AllIn(ranked[rank], facts, s') then Search(ranked, facts, domain, s', vars[1..], rank + 1) else [];
    BranchesStep(ranked, facts, domain, s, vars, rank, n - 1);
    if r in Branches(ranked, facts, domain, s, vars, rank, n - 1) {
      BranchesFirstBinding(ranked, facts, domain, allVars, s, vars, rank, n - 1, r);
      assert domain[..n - 1] <= domain[..n];
    } else {
      assert r in tail;
      SearchStateStep(ranked, allVars, s, vars, rank, domain[n - 1]);
      SearchSound(ranked, facts, domain, allVars, s', vars[1..], rank + 1, r);
      assert domain[..n][n - 1] == domain[n - 1];
    }
  }

  /**
   * The search never reaches the same leaf twice: siblings bind the next
   * variable to different terms of the domain, and a leaf keeps that binding.
   */
  lemma {:induction false} SearchDistinct(ranked: seq<seq<Atom>>, facts: set<Atom>, domain: seq<Term>, allVars: seq<Term>,
                                          s: Substitution, vars: seq<Term>, rank: nat)
    requires SearchState(ranked, allVars, s, vars, rank) && Distinct(domain)
    ensures Distinct(Search(ranked, facts, domain, s, vars, rank))
    decreases |vars|, |domain| + 1
  {
    if vars != [] {
      BranchesDistinct(ranked, facts, domain, allVars, s, vars, rank, |domain|);
    }
  }

  lemma {:induction false} BranchesDistinct(ranked: seq<seq<Atom>>, facts: set<Atom>, domain: seq<Term>, allVars: seq<Term>,
                                            s: Substitution, vars: seq<Term>, rank: nat, n: nat)
    requires SearchState(ranked, allVars, s, vars, rank) && vars != [] && n <= |domain| && Distinct(domain)
    ensures Distinct(Branches(ranked, facts, domain, s, vars, rank, n))
    decreases |vars|, n
  {
    if n != 0 {
      var s' := s[vars[0] := domain[n - 1]];
      var tail := if AllIn(ranked[rank], facts, s') then Search(ranked, facts, domain, s', vars[1..], rank + 1) else [];
      var earlier := Branches(ranked, facts, domain, s, vars, rank, n - 1);
      BranchesStep(ranked, facts, domain, s, vars, rank, n - 1);
      BranchesDistinct(ranked, facts, domain, allVars, s, vars, rank, n - 1);
      if AllIn(ranked[rank], facts, s') {
        SearchStateStep(ranked, allVars, s, vars, rank, domain[n - 1]);
        SearchDistinct(ranked, facts, domain, allVars, s', vars[1..], rank + 1);
        forall i, j | 0 <= i < |earlier| && 0 <= j < |tail|
          ensures earlier[i] != tail[j]
        {
          SiblingsDiffer(ranked, facts, domain, allVars, s, vars, rank, n, earlier[i], tail[j]);
        }
      }
      DistinctConcat(earlier, tail);
    }
  }

  /** A leaf found before candidate n - 1 differs from every leaf below it: they bind vars[0] differently. */
  lemma SiblingsDiffer(ranked: seq<seq<Atom>>, facts: set<Atom>, domain: seq<Term>, allVars: seq<Term>,
                       s: Substitution, vars: seq<Term>, rank: nat, n: nat, a: Substitution, b: Substitution)
    requires SearchState(ranked, allVars, s, vars, rank) && vars != [] && 0 < n <= |domain| && Distinct(domain)
    requires a in Branches(ranked, facts, domain, s, vars, rank, n - 1)
    requires b in Search(ranked, facts, domain, s[vars[0] := domain[n - 1]], vars[1..], rank + 1)
    ensures a != b
  {
    BranchesFirstBinding(ranked, facts, domain, allVars, s, vars, rank, n - 1, a);
    SearchStateStep(ranked, allVars, s, vars, rank, domain[n - 1]);
    SearchSound(ranked, facts, domain, allVars, s[vars[0] := domain[n - 1]], vars[1..], rank + 1, b);
    assert domain[n - 1] !in domain[..n - 1];
  }

  lemma DistinctConcat<T>(a: seq<T>, b: seq<T>)
    requires Distinct(a) && Distinct(b)
    requires forall i, j :: 0 <= i < |a| && 0 <= j < |b| ==> a[i] != b[j]
    ensures Distinct(a + b)
  {
    forall i, j | 0 <= i < j < |a + b|
      ensures (a + b)[i] != (a + b)[j]
    {
      if j < |a| {
      } else if i < |a| {
        assert (a + b)[j] == b[j - |a|];
      } else {
        assert (a + b)[i] == b[i - |a|] && (a + b)[j] == b[j - |a|];
      }
    }
  }

  /** Once candidate i for vars[0] leads to leaf h, every longer run of candidates still does. */
  lemma {:induction false} BranchesContain(ranked: seq<seq<Atom>>, facts: set<Atom>, domain: seq<Term>,
                                           s: Substitution, vars: seq<Term>, rank: nat, i: nat, n: nat, h: Substitution)
    requires 1 <= rank && rank + |vars| == |ranked| && vars != [] && i < n <= |domain|
    requires AllIn(ranked[rank], facts, s[vars[0] := domain[i]])
    requires h in Search(ranked, facts, domain, s[vars[0] := domain[i]], vars[1..], rank + 1)
    ensures h in Branches(ranked, facts, domain, s, vars, rank, n)
    decreases n
  {
    var s' := s[vars[0] := domain[n - 1]];
    var tail := if AllIn(ranked[rank], facts, s') then Search(ranked, facts, domain, s', vars[1..], rank + 1) else [];
    BranchesStep(ranked, facts, domain, s, vars, rank, n - 1);
    if n - 1 == i {
      assert h in tail;
    } else {
      BranchesContain(ranked, facts, domain, s, vars, rank, i, n - 1, h);
    }
  }

  /** The leaves through the first n candidates come before those through the first m >= n. */
  lemma {:induction false} BranchesPrefix(ranked: seq<seq<Atom>>, facts: set<Atom>, domain: seq<Term>,
                                          s: Substitution, vars: seq<Term>, rank: nat, n: nat, m: nat)
    requires 1 <= rank && rank + |vars| == |ranked| && vars != [] && n <= m <= |domain|
    ensures Branches(ranked, facts, domain, s, vars, rank, n)
         <= Branches(ranked, facts, domain, s, vars, rank, m)
    decreases m
  {
    if n < m {
      BranchesPrefix(ranked, facts, domain, s, vars, rank, n, m - 1);
    }
  }

  /**
   * Completeness of the search: every substitution that binds exactly the
   * ordered variables, extends s, takes the remaining ones from the domain
   * and satisfies every bucket from depth rank on is a leaf.
   */
  lemma {:induction false} SearchComplete(ranked: seq<seq<Atom>>, facts: set<Atom>, domain: seq<Term>, allVars: seq<Term>,
                                          s: Substitution, vars: seq<Term>, rank: nat, h: Substitution)
    requires SearchState(ranked, allVars, s, vars, rank)
    requires forall t :: t in h <==> t in allVars
    requires forall t :: t in s ==> h[t] == s[t]
    requires forall v :: v in vars ==> h[v] in domain
    requires forall k :: rank <= k < |ranked| ==> AllIn(ranked[k], facts, h)
    ensures h in Search(ranked, facts, domain, s, vars, rank)
    decreases |vars|
  {
    if vars == [] {
      assert allVars[..rank - 1] == allVars;
      assert h == s;
    } else {
      var v := vars[0];
      assert h[v] in domain;
      var i :| 0 <= i < |domain| && domain[i] == h[v];
      var s' := s[v := domain[i]];
      SearchStateStep(ranked, allVars, s, vars, rank, domain[i]);
      assert forall t :: t in s' ==> h[t] == s'[t];
      BucketAgrees(ranked, facts, allVars, s', rank, h);
      SearchComplete(ranked, facts, domain, allVars, s', vars[1..], rank + 1, h);
      BranchesContain(ranked, facts, domain, s, vars, rank, i, |domain|, h);
    }
  }

  // ---------------------------------------------------------------------
  // Whole patterns: the ordered variables and the buckets of a pattern
  // ---------------------------------------------------------------------

  /** allVars orders the variables of the pattern, each once. */
  ghost predicate IsVariableOrder(atoms: seq<Atom>, allVars: seq<Term>) {
    Distinct(allVars) && forall t :: t in allVars <==> t in VariableSet(atoms)
  }

  /** The atoms of bucket 0 contain no ordered variable, so any substitution over those variables leaves them unchanged. */
  lemma BucketZeroUnbound(atoms: seq<Atom>, allVars: seq<Term>, r: Substitution, a: Atom)
    requires forall t :: t in r ==> t in allVars
    requires a in Bucket(atoms, allVars, 0)
    ensures ApplyAtom(r, a) == a && ApplyAtom(map[], a) == a
  {
    ApplyAtomUnbound(r, a);
    ApplyAtomUnbound(map[], a);
  }

  /**
   * For any order of the pattern's variables, the leaves of the search
   * started after a successful bucket-0 check are homomorphisms of the
   * pattern into the facts, with every binding taken from the domain.
   */
  lemma SearchFindsOnlyHomomorphisms(atoms: seq<Atom>, facts: set<Atom>, domain: seq<Term>, allVars: seq<Term>, r: Substitution)
    requires IsVariableOrder(atoms, allVars)
    requires AllIn(Buckets(atoms, allVars)[0], facts, map[])
    requires r in Search(Buckets(atoms, allVars), facts, domain, map[], allVars, 1)
    ensures IsHomomorphismOf(atoms, facts, r)
    ensures forall v :: v in r ==> r[v] in domain
  {
    var ranked := Buckets(atoms, allVars);
    BucketsRanked(atoms, allVars);
    assert allVars[0..] == allVars;
    SearchSound(ranked, facts, domain, allVars, map[], allVars, 1, r);
    forall a | a in atoms
      ensures ApplyAtom(r, a) in facts
    {
      var k := TermsRank(a.terms, allVars);
      assert a in ranked[k];
      if k == 0 {
        BucketZeroUnbound(atoms, allVars, r, a);
      }
    }
  }

  /**
   * For any order of the pattern's variables, every homomorphism of the
   * pattern into the facts whose bindings lie in the domain passes the
   * bucket-0 check and is a leaf of the search.
   */
  lemma SearchFindsEveryHomomorphism(atoms: seq<Atom>, facts: set<Atom>, domain: seq<Term>, allVars: seq<Term>, h: Substitution)
    requires IsVariableOrder(atoms, allVars)
    requires IsHomomorphismOf(atoms, facts, h)
    requires forall v :: v in h ==> h[v] in domain
    ensures AllIn(Buckets(atoms, allVars)[0], facts, map[])
    ensures h in Search(Buckets(atoms, allVars), facts, domain, map[], allVars, 1)
  {
    var ranked := Buckets(atoms, allVars);
    BucketsRanked(atoms, allVars);
    assert allVars[0..] == allVars;
    forall a | a in ranked[0]
      ensures ApplyAtom(map[], a) in facts
    {
      BucketZeroUnbound(atoms, allVars, h, a);
    }
    SearchComplete(ranked, facts, domain, allVars, map[], allVars, 1, h);
  }

  // ---------------------------------------------------------------------
  // The two entry points, as specifications
  // ---------------------------------------------------------------------

  /**
   * The answers of a query with a given variable order: nothing when some
   * bucket-0 atom is not a fact, otherwise every leaf of the search
   * restricted to the answer variables.
   */
  function AnswersFor(q: ConjunctiveQuery, facts: set<Atom>, domain: seq<Term>, allVars: seq<Term>): seq<Substitution> {
    var ranked := Buckets(q.atoms, allVars);
    if AllIn(ranked[0], facts, map[]) then Projected(Search(ranked, facts, domain, map[], allVars, 1), q.answerVariables)
    else []
  }

  /** The answers of a query with the solver's own variable order. */
  function Answers(q: ConjunctiveQuery, facts: set<Atom>, domain: seq<Term>): seq<Substitution> {
    AnswersFor(q, facts, domain, FirstOccurrences(VariablesIn(q.atoms)))
  }

  /** Whether the pattern maps into the facts, with the solver's own variable order. */
  function Entails(atoms: seq<Atom>, facts: set<Atom>, domain: seq<Term>): bool {
    var allVars := FirstOccurrences(VariablesIn(atoms));
    var ranked := Buckets(atoms, allVars);
    AllIn(ranked[0], facts, map[]) && Search(ranked, facts, domain, map[], allVars, 1) != []
  }

  lemma SolverOrderIsVariableOrder(atoms: seq<Atom>)
    ensures IsVariableOrder(atoms, FirstOccurrences(VariablesIn(atoms)))
  {
  }

  /** Soundness of query answering: every answer is a homomorphism restricted to the answer variables. */
  lemma AnswersSound(q: ConjunctiveQuery, facts: set<Atom>, domain: seq<Term>, allVars: seq<Term>, sigma: Substitution)
    requires IsVariableOrder(q.atoms, allVars)
    requires sigma in AnswersFor(q, facts, domain, allVars)
    ensures forall v :: v in sigma <==> v in q.answerVariables
    ensures exists h :: IsHomomorphismOf(q.atoms, facts, h) && (forall v :: v in h ==> h[v] in domain)
                        && sigma == Project(h, q.answerVariables)
  {
    var ranked := Buckets(q.atoms, allVars);
    var leaves := Search(ranked, facts, domain, map[], allVars, 1);
    var i :| 0 <= i < |leaves| && sigma == Project(leaves[i], q.answerVariables);
    SearchFindsOnlyHomomorphisms(q.atoms, facts, domain, allVars, leaves[i]);
  }

  /** Completeness of query answering: every homomorphism, restricted to the answer variables, is an answer. */
  lemma AnswersComplete(q: ConjunctiveQuery, facts: set<Atom>, domain: seq<Term>, allVars: seq<Term>, h: Substitution)
    requires IsVariableOrder(q.atoms, allVars)
    requires forall t :: t in TermsOf(facts) ==> t in domain
    requires IsHomomorphismOf(q.atoms, facts, h)
    ensures Project(h, q.answerVariables) in AnswersFor(q, facts, domain, allVars)
  {
    HomomorphismImagesAreFactTerms(q.atoms, facts, h);
    SearchFindsEveryHomomorphism(q.atoms, facts, domain, allVars, h);
    var leaves := Search(Buckets(q.atoms, allVars), facts, domain, map[], allVars, 1);
    var i :| 0 <= i < |leaves| && leaves[i] == h;
    assert Projected(leaves, q.answerVariables)[i] == Project(h, q.answerVariables);
  }

  /** The boolean entry point decides exactly whether a homomorphism exists. */
  lemma EntailsIffHomomorphism(atoms: seq<Atom>, facts: set<Atom>, domain: seq<Term>)
    requires forall t :: t in TermsOf(facts) ==> t in domain
    ensures Entails(atoms, facts, domain) <==> exists h :: IsHomomorphismOf(atoms, facts, h)
  {
    var allVars := FirstOccurrences(VariablesIn(atoms));
    var ranked := Buckets(atoms, allVars);
    if Entails(atoms, facts, domain) {
      var leaves := Search(ranked, facts, domain, map[], allVars, 1);
      SearchFindsOnlyHomomorphisms(atoms, facts, domain, allVars, leaves[0]);
    }
    if h :| IsHomomorphismOf(atoms, facts, h) {
      HomomorphismImagesAreFactTerms(atoms, facts, h);
      SearchFindsEveryHomomorphism(atoms, facts, domain, allVars, h);
    }
  }

  /** When a query has a single homomorphism, its only possible answer is that homomorphism restricted to the answer variables. */
  lemma UniqueHomomorphismUniqueAnswer(q: ConjunctiveQuery, facts: set<Atom>, domain: seq<Term>, h0: Substitution, sigma: Substitution)
    requires forall h :: IsHomomorphismOf(q.atoms, facts, h) ==> h == h0
    requires sigma in Answers(q, facts, domain)
    ensures sigma == Project(h0, q.answerVariables)
  {
    SolverOrderIsVariableOrder(q.atoms);
    AnswersSound(q, facts, domain, FirstOccurrences(VariablesIn(q.atoms)), sigma);
  }

  /** A query with exactly one homomorphism h0 has exactly one answer, once: h0 restricted to the answer variables. */
  lemma UniqueHomomorphismAnswers(q: ConjunctiveQuery, facts: set<Atom>, domain: seq<Term>, h0: Substitution)
    requires IsTermEnumeration(facts, domain)
    requires IsHomomorphismOf(q.atoms, facts, h0)
    requires forall h :: IsHomomorphismOf(q.atoms, facts, h) ==> h == h0
    ensures Answers(q, facts, domain) == [Project(h0, q.answerVariables)]
  {
    var allVars := FirstOccurrences(VariablesIn(q.atoms));
    var ranked := Buckets(q.atoms, allVars);
    var leaves := Search(ranked, facts, domain, map[], allVars, 1);
    SolverOrderIsVariableOrder(q.atoms);
    HomomorphismImagesAreFactTerms(q.atoms, facts, h0);
    SearchFindsEveryHomomorphism(q.atoms, facts, domain, allVars, h0);
    assert h0 in leaves;
    BucketsRanked(q.atoms, allVars);
    assert allVars[0..] == allVars;
    SearchDistinct(ranked, facts, domain, allVars, map[], allVars, 1);
    forall l | l in leaves
      ensures l == h0
    {
      SearchFindsOnlyHomomorphisms(q.atoms, facts, domain, allVars, l);
    }
    OnlyElement(leaves, h0);
  }

  /** A repetition-free list that holds x and nothing else is [x]. */
  lemma OnlyElement<T>(xs: seq<T>, x: T)
    requires Distinct(xs) && x in xs
    requires forall y :: y in xs ==> y == x
    ensures xs == [x]
  {
    assert xs[0] in xs && xs[|xs| - 1] in xs;
  }

  /** The boolean entry point agrees with the enumerating one: true iff there is at least one answer. */
  lemma EntailsIffAnswers(q: ConjunctiveQuery, facts: set<Atom>, domain: seq<Term>)
    ensures Entails(q.atoms, facts, domain) <==> Answers(q, facts, domain) != []
  {
  }

  /** A ground pattern atom that is not a fact leaves the query without answers. */
  lemma MissingGroundAtomMeansNoAnswers(q: ConjunctiveQuery, facts: set<Atom>, domain: seq<Term>, a: Atom)
    requires a in q.atoms && a !in facts
    requires forall t :: t in a.terms ==> !t.Variable?
    ensures Answers(q, facts, domain) == []
    ensures !Entails(q.atoms, facts, domain)
  {
    var allVars := FirstOccurrences(VariablesIn(q.atoms));
    assert TermsRank(a.terms, allVars) == 0;
    assert a in Buckets(q.atoms, allVars)[0];
    ApplyAtomUnbound(map[], a);
  }

  /** A bucket over no variables holds the whole pattern. */
  lemma {:induction false} BucketOverNoVariables(atoms: seq<Atom>)
    ensures Bucket(atoms, [], 0) == atoms
  {
    if atoms != [] {
      BucketOverNoVariables(atoms[..|atoms| - 1]);
      assert atoms == atoms[..|atoms| - 1] + [atoms[|atoms| - 1]];
    }
  }

  /**
   * A pattern without variables all of whose atoms are facts (an empty
   * pattern, in particular) has exactly one answer: the empty
   * substitution restricted to the answer variables.
   */
  lemma GroundPatternHasOneAnswer(q: ConjunctiveQuery, facts: set<Atom>, domain: seq<Term>)
    requires VariablesIn(q.atoms) == []
    requires AllIn(q.atoms, facts, map[])
    ensures Answers(q, facts, domain) == [Project(map[], q.answerVariables)]
  {
    BucketOverNoVariables(q.atoms);
  }

  /** A pattern with variables over facts with no terms has no answer. */
  lemma EmptyDomainMeansNoAnswers(q: ConjunctiveQuery, facts: set<Atom>, domain: seq<Term>)
    requires VariablesIn(q.atoms) != [] && domain == []
    ensures Answers(q, facts, domain) == []
  {
    var allVars := FirstOccurrences(VariablesIn(q.atoms));
    assert VariablesIn(q.atoms)[0] in allVars;
    var ranked := Buckets(q.atoms, allVars);
    assert Search(ranked, facts, domain, map[], allVars, 1) == Branches(ranked, facts, domain, map[], allVars, 1, 0);
  }

  // ---------------------------------------------------------------------
  // The solver
  // ---------------------------------------------------------------------

  /** order: the variables without repetition, in first-occurrence order. */
  method Order(vars: seq<Term>) returns (orderedList: seq<Term>)
    ensures orderedList == FirstOccurrences(vars)
    ensures Distinct(orderedList)
    ensures forall t :: t in orderedList <==> t in vars
    ensures forall i, j :: 0 <= i < j < |orderedList| ==> FirstIndex(vars, orderedList[i]) < FirstIndex(vars, orderedList[j])
  {
    orderedList := [];
    for i := 0 to |vars|
      invariant orderedList == FirstOccurrences(vars[..i])
    {
      assert vars[..i + 1][..i] == vars[..i];
      if vars[i] !in orderedList {
        orderedList := orderedList + [vars[i]];
      }
    }
    assert vars[..|vars|] == vars;
    forall i, j | 0 <= i < j < |orderedList|
      ensures FirstIndex(vars, orderedList[i]) < FirstIndex(vars, orderedList[j])
    {
      FirstOccurrencesOrder(vars, i, j);
    }
  }

  /** getAtomRank: |varsOrdered| + 1 buckets, bucket k holding the atoms of rank k in pattern order. */
  method GetAtomRank(atomset: seq<Atom>, varsOrdered: seq<Term>) returns (atomRank: array<seq<Atom>>)
    ensures atomRank.Length == |varsOrdered| + 1
    ensures atomRank[..] == Buckets(atomset, varsOrdered)
  {
    atomRank := new seq<Atom>[|varsOrdered| + 1](_ => []);
    for i := 0 to |atomset|
      invariant atomRank[..] == Buckets(atomset[..i], varsOrdered)
    {
      var a := atomset[i];
      var rank := 0;
      for j := 0 to |a.terms|
        invariant rank == TermsRank(a.terms[..j], varsOrdered)
        invariant atomRank[..] == Buckets(atomset[..i], varsOrdered)
      {
        TermsRankStep(a.terms, j, varsOrdered);
        var tmp := IndexOf(varsOrdered, a.terms[j]) + 1;
        if rank < tmp {
          rank := tmp;
        }
      }
      assert a.terms[..|a.terms|] == a.terms;
      BucketsStep(atomset, i, varsOrdered);
      ghost var before := atomRank[..];
      atomRank[rank] := atomRank[rank] + [a];
      assert atomRank[..] == before[rank := before[rank] + [a]];
    }
    assert atomset[..|atomset|] == atomset;
  }

  /** The rank of one more term. */
  lemma TermsRankStep(ts: seq<Term>, j: nat, vs: seq<Term>)
    requires j < |ts|
    ensures TermsRank(ts[..j], vs) < IndexOf(vs, ts[j]) + 1 ==> TermsRank(ts[..j + 1], vs) == IndexOf(vs, ts[j]) + 1
    ensures IndexOf(vs, ts[j]) + 1 <= TermsRank(ts[..j], vs) ==> TermsRank(ts[..j + 1], vs) == TermsRank(ts[..j], vs)
  {
    assert ts[..j + 1][..j] == ts[..j];
  }

  /** The buckets of one more atom: the atom is appended to the bucket of its rank, the others stay. */
  lemma BucketsStep(atoms: seq<Atom>, i: nat, vs: seq<Term>)
    requires i < |atoms|
    ensures var r := TermsRank(atoms[i].terms, vs);
      Buckets(atoms[..i + 1], vs) == Buckets(atoms[..i], vs)[r := Buckets(atoms[..i], vs)[r] + [atoms[i]]]
  {
    assert atoms[..i + 1][..i] == atoms[..i];
    var r := TermsRank(atoms[i].terms, vs);
    forall k | 0 <= k <= |vs|
      ensures Bucket(atoms[..i + 1], vs, k) == Bucket(atoms[..i], vs, k) + (if r == k then [atoms[i]] else [])
    {
    }
    forall k | 0 <= k <= |vs| && k != r
      ensures Bucket(atoms[..i + 1], vs, k) == Bucket(atoms[..i], vs, k)
    {
      assert Bucket(atoms[..i], vs, k) + [] == Bucket(atoms[..i], vs, k);
    }
  }

  /** isHomomorphism: whether every atom, under the substitution, is a fact; stops at the first that is not. */
  method IsHomomorphism(atomsFrom: seq<Atom>, atomsTo: set<Atom>, substitution: Substitution) returns (b: bool)
    ensures b == AllIn(atomsFrom, atomsTo, substitution)
  {
    for i := 0 to |atomsFrom|
      invariant AllIn(atomsFrom[..i], atomsTo, substitution)
    {
      if ApplyAtom(substitution, atomsFrom[i]) !in atomsTo {
        return false;
      }
      assert atomsFrom[..i + 1] == atomsFrom[..i] + [atomsFrom[i]];
    }
    assert atomsFrom[..|atomsFrom|] == atomsFrom;
    return true;
  }

  /** The leaf output: the substitution restricted to the answer variables, one binding at a time. */
  method FilterSubstitution(substitution: Substitution, answerVariables: seq<Term>) returns (filteredSub: Substitution)
    ensures filteredSub == Project(substitution, answerVariables)
  {
    filteredSub := map[];
    for i := 0 to |answerVariables|
      invariant filteredSub == Project(substitution, answerVariables[..i])
    {
      assert answerVariables[..i + 1] == answerVariables[..i] + [answerVariables[i]];
      filteredSub := filteredSub[answerVariables[i] := ApplyTerm(substitution, answerVariables[i])];
    }
    assert answerVariables[..|answerVariables|] == answerVariables;
  }

  /**
   * homomorphism: binds the next variable to each term of the domain in
   * turn, on a fresh copy of the substitution and of the remaining
   * variables, keeps the candidates under which bucket rank holds, and
   * collects the leaves, restricted to the answer variables.
   */
  method Homomorphism(answerVariables: seq<Term>, queryAtomRanked: array<seq<Atom>>, facts: set<Atom>, domain: seq<Term>,
                      substitution: Substitution, orderedVars: seq<Term>, rank: nat) returns (substitutionList: seq<Substitution>)
    requires 1 <= rank && rank + |orderedVars| == queryAtomRanked.Length
    ensures substitutionList == Projected(Search(queryAtomRanked[..], facts, domain, substitution, orderedVars, rank), answerVariables)
    decreases |orderedVars|
  {
    if |orderedVars| == 0 {
      var filteredSub := FilterSubstitution(substitution, answerVariables);
      substitutionList := [filteredSub];
    } else {
      var v := orderedVars[0];
      var remaining := orderedVars[1..];
      substitutionList := [];
      for i := 0 to |domain|
        invariant substitutionList == Projected(Branches(queryAtomRanked[..], facts, domain, substitution, orderedVars, rank, i), answerVariables)
      {
        var tmpSubstitution := substitution[v := domain[i]];
        var ok := IsHomomorphism(queryAtomRanked[rank], facts, tmpSubstitution);
        ghost var before := Branches(queryAtomRanked[..], facts, domain, substitution, orderedVars, rank, i);
        if ok {
          var found := Homomorphism(answerVariables, queryAtomRanked, facts, domain, tmpSubstitution, remaining, rank + 1);
          ProjectedAppend(before, Search(queryAtomRanked[..], facts, domain, tmpSubstitution, remaining, rank + 1), answerVariables);
          substitutionList := substitutionList + found;
        } else {
          assert before + [] == before;
        }
      }
    }
  }

  /** existHomomorphism: the same search, answering only whether some leaf is reached; stops at the first. */
  method ExistHomomorphism(queryAtomRanked: array<seq<Atom>>, facts: set<Atom>, domain: seq<Term>,
                           substitution: Substitution, orderedVars: seq<Term>, rank: nat) returns (b: bool)
    requires 1 <= rank && rank + |orderedVars| == queryAtomRanked.Length
    ensures b == (Search(queryAtomRanked[..], facts, domain, substitution, orderedVars, rank) != [])
    decreases |orderedVars|
  {
    if |orderedVars| == 0 {
      return true;
    }
    var v := orderedVars[0];
    var remaining := orderedVars[1..];
    for i := 0 to |domain|
      invariant Branches(queryAtomRanked[..], facts, domain, substitution, orderedVars, rank, i) == []
    {
      BranchesStep(queryAtomRanked[..], facts, domain, substitution, orderedVars, rank, i);
      var tmpSubstitution := substitution[v := domain[i]];
      var ok := IsHomomorphism(queryAtomRanked[rank], facts, tmpSubstitution);
      if ok {
        var found := ExistHomomorphism(queryAtomRanked, facts, domain, tmpSubstitution, remaining, rank + 1);
        if found {
          BranchesPrefix(queryAtomRanked[..], facts, domain, substitution, orderedVars, rank, i + 1, |domain|);
          return true;
        }
      }
    }
    return false;
  }

  /**
   * execute: the answers of a conjunctive query over the facts. Every
   * answer binds exactly the answer variables and comes from a
   * homomorphism of the query into the facts, and every homomorphism
   * yields an answer.
   */
  method Execute(query: ConjunctiveQuery, facts: set<Atom>, domain: seq<Term>) returns (answers: seq<Substitution>)
    requires IsTermEnumeration(facts, domain)
    ensures answers == Answers(query, facts, domain)
    ensures forall sigma :: sigma in answers ==> (forall v :: v in sigma <==> v in query.answerVariables)
    ensures forall sigma :: sigma in answers ==>
              exists h :: IsHomomorphismOf(query.atoms, facts, h) && sigma == Project(h, query.answerVariables)
    ensures forall h :: IsHomomorphismOf(query.atoms, facts, h) ==> Project(h, query.answerVariables) in answers
  {
    var orderedVars := Order(VariablesIn(query.atoms));
    var queryAtomRanked := GetAtomRank(query.atoms, orderedVars);
    var ok := IsHomomorphism(queryAtomRanked[0], facts, map[]);
    if ok {
      answers := Homomorphism(query.answerVariables, queryAtomRanked, facts, domain, map[], orderedVars, 1);
    } else {
      answers := [];
    }
    SolverOrderIsVariableOrder(query.atoms);
    forall sigma | sigma in answers
      ensures (forall v :: v in sigma <==> v in query.answerVariables)
      ensures exists h :: IsHomomorphismOf(query.atoms, facts, h) && sigma == Project(h, query.answerVariables)
    {
      AnswersSound(query, facts, domain, orderedVars, sigma);
    }
    forall h | IsHomomorphismOf(query.atoms, facts, h)
      ensures Project(h, query.answerVariables) in answers
    {
      AnswersComplete(query, facts, domain, orderedVars, h);
    }
  }

  /** exist: whether the first atom set maps into the second. */
  method Exist(atomSet1: seq<Atom>, atomSet2: set<Atom>, domain: seq<Term>) returns (b: bool)
    requires IsTermEnumeration(atomSet2, domain)
    ensures b == Entails(atomSet1, atomSet2, domain)
    ensures b <==> exists h :: IsHomomorphismOf(atomSet1, atomSet2, h)
  {
    var orderedVars := Order(VariablesIn(atomSet1));
    var queryAtomRanked := GetAtomRank(atomSet1, orderedVars);
    var ok := IsHomomorphism(queryAtomRanked[0], atomSet2, map[]);
    if ok {
      b := ExistHomomorphism(queryAtomRanked, atomSet2, domain, map[], orderedVars, 1);
    } else {
      b := false;
    }
    EntailsIffHomomorphism(atomSet1, atomSet2, domain);
  }
}
