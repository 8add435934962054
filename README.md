# Graal: backtracking homomorphism solver and RuleML writer

This project models two parts of the Graal rule-based reasoner and proves properties of them.

- **The backtracking homomorphism solver** (`RecursiveBacktrackHomomorphism`). It answers a conjunctive query over a collection of facts. It works in four steps:
  - It fixes an order on the query's variables: first occurrence, without repetition.
  - It sorts the query atoms into rank buckets. Bucket *k* holds the atoms whose last ordered variable is the *k*-th one; bucket 0 holds the ground atoms.
  - It checks bucket 0.
  - It searches depth first. At depth *k* it binds the *k*-th variable to every term of the facts in turn, each time on a fresh copy of the substitution, and checks only bucket *k*. Every leaf is reported restricted to the answer variables (`execute`), or the search only says whether a leaf exists (`exist`).
- **The RuleML writer** (`RuleMLWriter`). It serialises facts, rules, conjunctive queries and comments as a RuleML 1.01 (Datalog+) XML document. It keeps an indentation counter and a flag that is set while a fact is written, and it appends to an output text.

Modules:

- `Terms` (Terms.dfy): identifiers, terms, predicates, atoms, conjunctive queries, rules, and first-occurrence order.
- `Substitutions` (Substitutions.dfy): substitutions as maps from variables to terms, their application to atoms, and projection onto answer variables.
- `Homomorphism` (Homomorphism.dfy):
  - The search is specified as the function `Search`/`Branches`, which lists the leaves in the order the solver reaches them.
  - That search is proved sound and complete with respect to "every pattern atom, under the substitution, is a fact".
  - The solver's methods (`Order`, `GetAtomRank`, `IsHomomorphism`, the recursive `Homomorphism` and `ExistHomomorphism`, and the entry points `Execute` and `Exist`) are written as loops over arrays and sequences. Each is proved equal to the specification.
- `ChaseExample` (ChaseExample.dfy): the facts of the forward-chaining example, and the query `test(X, 11, 13, 11, 1)`, whose only answer is X -> f2.
- `RuleMLText` (RuleMLText.dfy):
  - What the writer emits is described as a trace of writer events: an element opened on a new line, an element closed inline or on a new line, an indented line break, or text.
  - Rendering a trace threads the indentation depth through it, exactly as the counter does.
  - Nesting a trace checks that each closing tag matches the innermost open element.
  - Every write operation has a function giving its trace. Balance, restored indentation, the conditional wrappers, and the written forms of terms, individuals and predicates are proved about these traces.
- `RuleMLWriting` (RuleMLWriter.dfy): the writer as a class.
  - Its fields are `out`, `currentIndentSize` and `inFact`. It also keeps a ghost trace of the events it has emitted and a ghost list of the entries written since `init`.
  - The invariant `Valid()` ties the output to the rendering of the trace and the counter to the trace's depth.
  - Each public method is proved to emit exactly the trace of its entry, so the properties proved in `RuleMLText` hold for the text it writes.

The fact store is a `set<Atom>`. The order in which the store enumerates its terms (`facts.getTerms()`) is a parameter `domain`: a sequence that lists every term of the facts exactly once. The store's iterator order is not visible in the source, so every result holds for every such order.

## Model

| member | source | states |
|---|---|---|
| Terms.VariablesIn | graal/graal-homomorphism/src/main/java/fr/lirmm/graphik/graal/homomorphism/RecursiveBacktrackHomomorphism.java:61-62 | the variable collection of an atom set contains exactly the variables of its atoms |
| Terms.FirstOccurrences | graal/graal-homomorphism/src/main/java/fr/lirmm/graphik/graal/homomorphism/RecursiveBacktrackHomomorphism.java:203-210 | the de-duplicated list has no repetition and contains exactly the input's elements |
| Terms.FirstOccurrencesOrder | graal/graal-homomorphism/src/main/java/fr/lirmm/graphik/graal/homomorphism/RecursiveBacktrackHomomorphism.java:203-210 | an element listed earlier by the de-duplicated list first occurs earlier in the input |
| Terms.Minus | graal-io/graal-io-ruleml/src/main/java/fr/lirmm/graphik/graal/io/ruleml/RuleMLWriter.java:165-167 | `removeAll` keeps exactly the elements of the first list that are not in the second, without repetition when the first has none; it gives the universal variables of a rule (line 167) and the existential variables of a query (line 215) |
| Substitutions.ApplyTerm | graal/graal-homomorphism/src/main/java/fr/lirmm/graphik/graal/homomorphism/RecursiveBacktrackHomomorphism.java:196 | the image of a term under a substitution: its binding when it has one, the term itself otherwise (as `substitution.getSubstitut`); ApplyAtom, ApplyAtomAgree and ApplyAtomUnbound state what follows for atoms |
| Substitutions.ApplyAtom | graal/graal-homomorphism/src/main/java/fr/lirmm/graphik/graal/homomorphism/RecursiveBacktrackHomomorphism.java:196 | the image of an atom keeps its predicate and arity and replaces each term by its binding, leaving unbound terms untouched |
| Substitutions.Project | graal/graal-homomorphism/src/main/java/fr/lirmm/graphik/graal/homomorphism/RecursiveBacktrackHomomorphism.java:125-128 | the filtered substitution binds exactly the answer variables, each to its image under the leaf substitution |
| Substitutions.ProjectOwnKeys | graal/graal-homomorphism/src/main/java/fr/lirmm/graphik/graal/homomorphism/RecursiveBacktrackHomomorphism.java:125-128 | filtering a substitution on exactly the variables it binds gives the same substitution back |
| Homomorphism.Order | graal/graal-homomorphism/src/main/java/fr/lirmm/graphik/graal/homomorphism/RecursiveBacktrackHomomorphism.java:203-210 | order returns a list without repetition holding exactly the input variables, in first-occurrence order |
| Homomorphism.IndexOf | graal/graal-homomorphism/src/main/java/fr/lirmm/graphik/graal/homomorphism/RecursiveBacktrackHomomorphism.java:231 | indexOf gives the first position of the term among the ordered variables, or -1 exactly when it is not one of them |
| Homomorphism.TermsRank | graal/graal-homomorphism/src/main/java/fr/lirmm/graphik/graal/homomorphism/RecursiveBacktrackHomomorphism.java:229-234 | an atom's rank is at most the number of variables and exceeds the position of each of its terms; a positive rank r means the (r-1)-th ordered variable occurs in the atom |
| Homomorphism.Bucket | graal/graal-homomorphism/src/main/java/fr/lirmm/graphik/graal/homomorphism/RecursiveBacktrackHomomorphism.java:228-236 | bucket k holds exactly the pattern atoms of rank k |
| Homomorphism.Buckets | graal/graal-homomorphism/src/main/java/fr/lirmm/graphik/graal/homomorphism/RecursiveBacktrackHomomorphism.java:223-225 | there are \|vars\| + 1 buckets, and entry k is bucket k |
| Homomorphism.BucketPartition | graal/graal-homomorphism/src/main/java/fr/lirmm/graphik/graal/homomorphism/RecursiveBacktrackHomomorphism.java:228-236 | every atom lands in the bucket of its rank, as often as it occurs in the pattern, and in no other bucket |
| Homomorphism.BucketsRanked | graal/graal-homomorphism/src/main/java/fr/lirmm/graphik/graal/homomorphism/RecursiveBacktrackHomomorphism.java:229-235 | every ordered variable of an atom in bucket k comes before position k |
| Homomorphism.BoundPrefixInstantiatesBuckets | graal/graal-homomorphism/src/main/java/fr/lirmm/graphik/graal/homomorphism/RecursiveBacktrackHomomorphism.java:212-235 | once the first k ordered variables are bound, every atom of buckets 0..k is fully instantiated |
| Homomorphism.GetAtomRank | graal/graal-homomorphism/src/main/java/fr/lirmm/graphik/graal/homomorphism/RecursiveBacktrackHomomorphism.java:219-237 | getAtomRank fills an array of \|vars\| + 1 buckets, each holding its rank's atoms in pattern order |
| Homomorphism.BucketsStep | graal/graal-homomorphism/src/main/java/fr/lirmm/graphik/graal/homomorphism/RecursiveBacktrackHomomorphism.java:235 | adding one atom appends it to the bucket of its rank and leaves the others unchanged |
| Homomorphism.TermsRankStep | graal/graal-homomorphism/src/main/java/fr/lirmm/graphik/graal/homomorphism/RecursiveBacktrackHomomorphism.java:230-234 | one more term raises the rank to that term's position + 1 exactly when the rank so far is lower |
| Homomorphism.IsHomomorphism | graal/graal-homomorphism/src/main/java/fr/lirmm/graphik/graal/homomorphism/RecursiveBacktrackHomomorphism.java:190-200 | isHomomorphism is true iff every atom's image under the substitution is a fact |
| Homomorphism.FilterSubstitution | graal/graal-homomorphism/src/main/java/fr/lirmm/graphik/graal/homomorphism/RecursiveBacktrackHomomorphism.java:125-128 | the leaf output is the substitution restricted to the answer variables |
| Homomorphism.Homomorphism | graal/graal-homomorphism/src/main/java/fr/lirmm/graphik/graal/homomorphism/RecursiveBacktrackHomomorphism.java:119-149 | homomorphism returns the leaves of the search, in search order, each restricted to the answer variables |
| Homomorphism.ExistHomomorphism | graal/graal-homomorphism/src/main/java/fr/lirmm/graphik/graal/homomorphism/RecursiveBacktrackHomomorphism.java:161-188 | existHomomorphism is true iff the same search reaches at least one leaf, so iff homomorphism would return a non-empty list |
| Homomorphism.BranchesStep | graal/graal-homomorphism/src/main/java/fr/lirmm/graphik/graal/homomorphism/RecursiveBacktrackHomomorphism.java:135-145 | one more candidate adds, after the earlier leaves, the leaves below it, and only if its bucket holds |
| Homomorphism.SearchStateStep | graal/graal-homomorphism/src/main/java/fr/lirmm/graphik/graal/homomorphism/RecursiveBacktrackHomomorphism.java:134-144 | binding the next variable on a copy of the substitution binds exactly one more ordered variable, which was unbound, and leaves the rest of the list to bind |
| Homomorphism.BucketAgrees | graal/graal-homomorphism/src/main/java/fr/lirmm/graphik/graal/homomorphism/RecursiveBacktrackHomomorphism.java:140-141 | the bucket checked at depth k gets the same verdict under the partial substitution and under any full substitution that extends it |
| Homomorphism.SearchSound | graal/graal-homomorphism/src/main/java/fr/lirmm/graphik/graal/homomorphism/RecursiveBacktrackHomomorphism.java:124-145 | every leaf binds exactly the ordered variables, keeps the bindings of the substitution it started from, takes every new binding from the domain, and satisfies every bucket from the current depth on |
| Homomorphism.BranchesSound | graal/graal-homomorphism/src/main/java/fr/lirmm/graphik/graal/homomorphism/RecursiveBacktrackHomomorphism.java:135-145 | the same four facts for the leaves reached through the first n candidates of the loop |
| Homomorphism.ChildSound | graal/graal-homomorphism/src/main/java/fr/lirmm/graphik/graal/homomorphism/RecursiveBacktrackHomomorphism.java:136-144 | the same four facts for a leaf below one candidate whose bucket holds |
| Homomorphism.BranchesContain | graal/graal-homomorphism/src/main/java/fr/lirmm/graphik/graal/homomorphism/RecursiveBacktrackHomomorphism.java:135-145 | a leaf found below candidate i stays among the leaves of every later point of the loop |
| Homomorphism.BranchesPrefix | graal/graal-homomorphism/src/main/java/fr/lirmm/graphik/graal/homomorphism/RecursiveBacktrackHomomorphism.java:135-145 | the leaves found through the first n candidates are a prefix of those found through the first m >= n |
| Homomorphism.SearchComplete | graal/graal-homomorphism/src/main/java/fr/lirmm/graphik/graal/homomorphism/RecursiveBacktrackHomomorphism.java:124-145 | every substitution that extends the current one, binds exactly the ordered variables from the domain and satisfies every remaining bucket is a leaf |
| Homomorphism.TermsOf | graal/graal-homomorphism/src/main/java/fr/lirmm/graphik/graal/homomorphism/RecursiveBacktrackHomomorphism.java:132 | the term domain of the facts (`facts.getTerms()`): every term that occurs in some fact; HomomorphismImagesAreFactTerms shows that every homomorphism binds into it |
| Homomorphism.IsTermEnumeration | graal/graal-homomorphism/src/main/java/fr/lirmm/graphik/graal/homomorphism/RecursiveBacktrackHomomorphism.java:169 | `domain` lists the terms of the facts, each exactly once, in whatever order the store yields them; every result about the solver holds for every such list |
| Homomorphism.AllIn | graal/graal-homomorphism/src/main/java/fr/lirmm/graphik/graal/homomorphism/RecursiveBacktrackHomomorphism.java:190-200 | the check of isHomomorphism: every atom of the list, under the substitution, is a fact; the method IsHomomorphism is proved to return exactly this |
| Homomorphism.Search | graal/graal-homomorphism/src/main/java/fr/lirmm/graphik/graal/homomorphism/RecursiveBacktrackHomomorphism.java:119-149 | the leaves reached by homomorphism/existHomomorphism from a substitution and the variables left to bind, in the order the solver reaches them: at no variable left, the substitution itself; SearchSound, SearchComplete and SearchDistinct state that the leaves are exactly the substitutions that satisfy the remaining buckets, each once |
| Homomorphism.Branches | graal/graal-homomorphism/src/main/java/fr/lirmm/graphik/graal/homomorphism/RecursiveBacktrackHomomorphism.java:132-145 | the leaves reached through the first n terms of the domain as candidates for the next variable: each candidate extends a copy of the substitution and is explored only when its bucket holds; BranchesStep, BranchesSound, BranchesContain and BranchesDistinct state its properties |
| Homomorphism.BranchesFirstBinding | graal/graal-homomorphism/src/main/java/fr/lirmm/graphik/graal/homomorphism/RecursiveBacktrackHomomorphism.java:132-137 | every leaf reached through the first n candidates binds the next variable to one of those n terms |
| Homomorphism.SearchDistinct | graal/graal-homomorphism/src/main/java/fr/lirmm/graphik/graal/homomorphism/RecursiveBacktrackHomomorphism.java:124-145 | when the domain has no repeated term, the search never reaches the same leaf twice |
| Homomorphism.BranchesDistinct | graal/graal-homomorphism/src/main/java/fr/lirmm/graphik/graal/homomorphism/RecursiveBacktrackHomomorphism.java:132-145 | the leaves reached through the first n candidates are pairwise distinct: siblings bind the next variable to different terms |
| Homomorphism.SiblingsDiffer | graal/graal-homomorphism/src/main/java/fr/lirmm/graphik/graal/homomorphism/RecursiveBacktrackHomomorphism.java:132-145 | a leaf found before candidate n - 1 differs from every leaf below that candidate, because they bind the next variable to different terms |
| Homomorphism.HomomorphismImagesAreFactTerms | graal/graal-homomorphism/src/main/java/fr/lirmm/graphik/graal/homomorphism/RecursiveBacktrackHomomorphism.java:132 | a homomorphism binds every variable to a term of the facts, so enumerating the facts' terms loses no homomorphism |
| Homomorphism.BucketZeroUnbound | graal/graal-homomorphism/src/main/java/fr/lirmm/graphik/graal/homomorphism/RecursiveBacktrackHomomorphism.java:212-213 | the atoms of bucket 0 are fully instantiated: no substitution over the ordered variables changes them |
| Homomorphism.SearchFindsOnlyHomomorphisms | graal/graal-homomorphism/src/main/java/fr/lirmm/graphik/graal/homomorphism/RecursiveBacktrackHomomorphism.java:66-70 | after a passing bucket-0 check, every leaf is a homomorphism of the pattern into the facts with bindings from the domain |
| Homomorphism.SearchFindsEveryHomomorphism | graal/graal-homomorphism/src/main/java/fr/lirmm/graphik/graal/homomorphism/RecursiveBacktrackHomomorphism.java:66-70 | every homomorphism with bindings in the domain passes the bucket-0 check and is a leaf |
| Homomorphism.AnswersFor | graal/graal-homomorphism/src/main/java/fr/lirmm/graphik/graal/homomorphism/RecursiveBacktrackHomomorphism.java:57-79 | what execute returns for a given variable order: nothing when bucket 0 fails, otherwise every leaf of the search restricted to the answer variables; AnswersSound and AnswersComplete characterise it for every order |
| Homomorphism.Answers | graal/graal-homomorphism/src/main/java/fr/lirmm/graphik/graal/homomorphism/RecursiveBacktrackHomomorphism.java:57-79 | execute's result with the solver's own first-occurrence variable order; the method Execute is proved to return it |
| Homomorphism.Entails | graal/graal-homomorphism/src/main/java/fr/lirmm/graphik/graal/homomorphism/RecursiveBacktrackHomomorphism.java:88-103 | exist's result: bucket 0 holds and the search reaches some leaf; EntailsIffHomomorphism and EntailsIffAnswers state what it means and the method Exist is proved to return it |
| Homomorphism.SolverOrderIsVariableOrder | graal/graal-homomorphism/src/main/java/fr/lirmm/graphik/graal/homomorphism/RecursiveBacktrackHomomorphism.java:61-62 | the solver's order lists each variable of the pattern exactly once |
| Homomorphism.AnswersSound | graal/graal-homomorphism/src/main/java/fr/lirmm/graphik/graal/homomorphism/RecursiveBacktrackHomomorphism.java:57-79 | for any order of the variables, every answer binds exactly the answer variables and is a homomorphism restricted to them |
| Homomorphism.AnswersComplete | graal/graal-homomorphism/src/main/java/fr/lirmm/graphik/graal/homomorphism/RecursiveBacktrackHomomorphism.java:57-79 | for any order of the variables, every homomorphism restricted to the answer variables is an answer |
| Homomorphism.EntailsIffHomomorphism | graal/graal-homomorphism/src/main/java/fr/lirmm/graphik/graal/homomorphism/RecursiveBacktrackHomomorphism.java:88-103 | the boolean entry point is true iff some homomorphism of the first atom set into the second exists |
| Homomorphism.EntailsIffAnswers | graal/graal-homomorphism/src/main/java/fr/lirmm/graphik/graal/homomorphism/RecursiveBacktrackHomomorphism.java:57-103 | exist is true iff execute yields at least one substitution |
| Homomorphism.UniqueHomomorphismUniqueAnswer | graal/graal-homomorphism/src/main/java/fr/lirmm/graphik/graal/homomorphism/RecursiveBacktrackHomomorphism.java:57-79 | when a query has at most one homomorphism, every answer is that homomorphism restricted to the answer variables |
| Homomorphism.UniqueHomomorphismAnswers | graal/graal-homomorphism/src/main/java/fr/lirmm/graphik/graal/homomorphism/RecursiveBacktrackHomomorphism.java:57-79 | a query with exactly one homomorphism has exactly one answer, reported once: that homomorphism restricted to the answer variables |
| Homomorphism.MissingGroundAtomMeansNoAnswers | graal/graal-homomorphism/src/main/java/fr/lirmm/graphik/graal/homomorphism/RecursiveBacktrackHomomorphism.java:66-75 | a ground pattern atom that is not a fact fails the bucket-0 check: execute yields nothing and exist is false |
| Homomorphism.BucketOverNoVariables | graal/graal-homomorphism/src/main/java/fr/lirmm/graphik/graal/homomorphism/RecursiveBacktrackHomomorphism.java:223-236 | with no ordered variables, bucket 0 holds the whole pattern |
| Homomorphism.GroundPatternHasOneAnswer | graal/graal-homomorphism/src/main/java/fr/lirmm/graphik/graal/homomorphism/RecursiveBacktrackHomomorphism.java:124-129 | a pattern without variables whose atoms are all facts (an empty pattern, in particular) has exactly one answer |
| Homomorphism.EmptyDomainMeansNoAnswers | graal/graal-homomorphism/src/main/java/fr/lirmm/graphik/graal/homomorphism/RecursiveBacktrackHomomorphism.java:132-145 | a pattern with variables over facts with no terms has no answer |
| Homomorphism.Execute | graal/graal-homomorphism/src/main/java/fr/lirmm/graphik/graal/homomorphism/RecursiveBacktrackHomomorphism.java:57-79 | execute returns the answers of the specification; each binds exactly the answer variables and comes from a homomorphism, and every homomorphism yields one |
| Homomorphism.Exist | graal/graal-homomorphism/src/main/java/fr/lirmm/graphik/graal/homomorphism/RecursiveBacktrackHomomorphism.java:88-103 | exist is true iff a homomorphism of the first atom set into the second exists |
| ChaseExample.PatternVariables | graal-forward-chaining/src/main/java/fr/lirmm/graphik/graal/forward_chaining/Test.java:21 | the only variable of the pattern test(X, 11, 13, 11, 1) is X |
| ChaseExample.PatternHomomorphism | graal-forward-chaining/src/main/java/fr/lirmm/graphik/graal/forward_chaining/Test.java:21-30 | over the six example facts, the only homomorphism of the pattern sends X to f2 |
| ChaseExample.F2IsHomomorphism | graal-forward-chaining/src/main/java/fr/lirmm/graphik/graal/forward_chaining/Test.java:28 | X -> f2 maps the pattern onto the fact test(f2, 11, 13, 11, 1) |
| ChaseExample.PatternAnswers | graal-forward-chaining/src/main/java/fr/lirmm/graphik/graal/forward_chaining/Test.java:21-30 | whatever the order of the fact terms, execute returns exactly one answer, X -> f2 |
| RuleMLText.Spaces | graal-io/graal-io-ruleml/src/main/java/fr/lirmm/graphik/graal/io/ruleml/RuleMLWriter.java:95 | n levels of indentation are n copies of the two-character indent style, and nothing for n <= 0 |
| RuleMLText.SpacesSnoc | graal-io/graal-io-ruleml/src/main/java/fr/lirmm/graphik/graal/io/ruleml/RuleMLWriter.java:375-377 | one more level of indentation is one more copy of the indent style |
| RuleMLText.RenderToken | graal-io/graal-io-ruleml/src/main/java/fr/lirmm/graphik/graal/io/ruleml/RuleMLWriter.java:373-402 | the text of one writer event at depth d: openBalise writes a line break, the indentation and the opening tag; closeBalise the closing tag inline; closeBaliseWithReturnLine a line break, the indentation one level up and the closing tag; writeIndent a line break and the indentation; text verbatim; RenderSnoc, InlineRendering and CloseText state its use |
| RuleMLText.RenderSnoc | graal-io/graal-io-ruleml/src/main/java/fr/lirmm/graphik/graal/io/ruleml/RuleMLWriter.java:373-402 | writing one more event appends its text at the depth left by the events before it and moves the depth by its own delta |
| RuleMLText.ElementName | graal-io/graal-io-ruleml/src/main/java/fr/lirmm/graphik/graal/io/ruleml/RuleMLWriter.java:119-121 | an opening tag's element name is the text up to its first space, as with the root tag and its namespace attributes |
| RuleMLText.NestDepth | graal-io/graal-io-ruleml/src/main/java/fr/lirmm/graphik/graal/io/ruleml/RuleMLWriter.java:365-371 | the indentation depth reached equals the height of the stack of open elements |
| RuleMLText.BalancedDepth | graal-io/graal-io-ruleml/src/main/java/fr/lirmm/graphik/graal/io/ruleml/RuleMLWriter.java:380-402 | a trace that closes everything it opens leaves the indentation counter unchanged |
| RuleMLText.BalancedElement | graal-io/graal-io-ruleml/src/main/java/fr/lirmm/graphik/graal/io/ruleml/RuleMLWriter.java:380-386 | openBalise, a balanced content, then closeBaliseWithReturnLine is balanced |
| RuleMLText.BalancedInlineElement | graal-io/graal-io-ruleml/src/main/java/fr/lirmm/graphik/graal/io/ruleml/RuleMLWriter.java:380-393 | openBalise, a text, then closeBalise is balanced |
| RuleMLText.ElementCount | graal-io/graal-io-ruleml/src/main/java/fr/lirmm/graphik/graal/io/ruleml/RuleMLWriter.java:380-402 | an element holds its content's events plus one opening and one closing tag of its own name |
| RuleMLText.TypeName | graal-io/graal-io-ruleml/src/main/java/fr/lirmm/graphik/graal/io/ruleml/RuleMLWriter.java:315-328 | the xsi:type of a literal: "xsd:" and the local name for an XML Schema datatype, the full IRI otherwise; LiteralRendering states the written form |
| RuleMLText.IndTokens | graal-io/graal-io-ruleml/src/main/java/fr/lirmm/graphik/graal/io/ruleml/RuleMLWriter.java:334-345 | writeInd's events: a self-closing Ind element carrying the IRI for an IRI identifier, an inline Ind element holding the name otherwise; IndRendering, IndBalanced and IndVarFree state its text and shape |
| RuleMLText.RelTokens | graal-io/graal-io-ruleml/src/main/java/fr/lirmm/graphik/graal/io/ruleml/RuleMLWriter.java:347-358 | writePredicate's events: the same two forms with the element Rel; RelRendering, RelBalanced and RelVarFree state its text and shape |
| RuleMLText.TermTokens | graal-io/graal-io-ruleml/src/main/java/fr/lirmm/graphik/graal/io/ruleml/RuleMLWriter.java:305-332 | writeTerm's events: a variable as an individual inside a fact and as a Var element elsewhere, a constant as an individual, a literal as a typed Data element; VariableRendering, LiteralRendering, TermBalanced and TermVarCount state them |
| RuleMLText.TermsTokens | graal-io/graal-io-ruleml/src/main/java/fr/lirmm/graphik/graal/io/ruleml/RuleMLWriter.java:285-287 | the events of the terms written one after the other; TermsBalanced and TermsVarCount state their shape |
| RuleMLText.StandardAtomTokens | graal-io/graal-io-ruleml/src/main/java/fr/lirmm/graphik/graal/io/ruleml/RuleMLWriter.java:281-289 | writeStandardAtom's events: an Atom element holding the predicate and then every term; AtomBalanced and StandardAtomVarFree state its shape |
| RuleMLText.EqualityTokens | graal-io/graal-io-ruleml/src/main/java/fr/lirmm/graphik/graal/io/ruleml/RuleMLWriter.java:292-297 | writeEquality's events: an Equal element holding the two terms; AtomBalanced and EqualityVarFree state its shape |
| RuleMLText.BottomTokens | graal-io/graal-io-ruleml/src/main/java/fr/lirmm/graphik/graal/io/ruleml/RuleMLWriter.java:300-303 | writeBottom's events: an empty Or element on its own line; AtomBalanced states that it opens nothing |
| RuleMLText.AtomTokens | graal-io/graal-io-ruleml/src/main/java/fr/lirmm/graphik/graal/io/ruleml/RuleMLWriter.java:142-150 | writeAtom's dispatch: an equality atom, the absurd atom and any other atom each have their own form; AtomBalanced and FactAtomVarFree state its shape |
| RuleMLText.AtomsTokens | graal-io/graal-io-ruleml/src/main/java/fr/lirmm/graphik/graal/io/ruleml/RuleMLWriter.java:272-278 | writeAtomSet's events: the atoms written one after the other; AtomsBalanced, AtomsWrapperFree and FactAtomsHaveNoVar state their shape |
| RuleMLText.LabelTokens | graal-io/graal-io-ruleml/src/main/java/fr/lirmm/graphik/graal/io/ruleml/RuleMLWriter.java:263-270 | writeLabel's events: a comment on its own line for a non-empty label, nothing for an empty one; LabelBalanced, LabelFirst and the two LabelWrittenIffNonEmpty lemmas state its effect |
| RuleMLText.IndBalanced | graal-io/graal-io-ruleml/src/main/java/fr/lirmm/graphik/graal/io/ruleml/RuleMLWriter.java:334-345 | writeInd is balanced and opens only atom-level elements |
| RuleMLText.RelBalanced | graal-io/graal-io-ruleml/src/main/java/fr/lirmm/graphik/graal/io/ruleml/RuleMLWriter.java:347-358 | writePredicate is balanced and opens only atom-level elements |
| RuleMLText.TermBalanced | graal-io/graal-io-ruleml/src/main/java/fr/lirmm/graphik/graal/io/ruleml/RuleMLWriter.java:305-332 | writeTerm is balanced and opens only atom-level elements |
| RuleMLText.TermsBalanced | graal-io/graal-io-ruleml/src/main/java/fr/lirmm/graphik/graal/io/ruleml/RuleMLWriter.java:285-287 | a sequence of terms is balanced and opens only atom-level elements |
| RuleMLText.AtomBalanced | graal-io/graal-io-ruleml/src/main/java/fr/lirmm/graphik/graal/io/ruleml/RuleMLWriter.java:281-303 | each of the three forms of an atom is balanced and opens only atom-level elements |
| RuleMLText.AtomsBalanced | graal-io/graal-io-ruleml/src/main/java/fr/lirmm/graphik/graal/io/ruleml/RuleMLWriter.java:272-278 | writeAtomSet is balanced, opens only atom-level elements and leaves the depth unchanged |
| RuleMLText.LabelBalanced | graal-io/graal-io-ruleml/src/main/java/fr/lirmm/graphik/graal/io/ruleml/RuleMLWriter.java:263-270 | writeLabel opens no element |
| RuleMLText.TermVarCount | graal-io/graal-io-ruleml/src/main/java/fr/lirmm/graphik/graal/io/ruleml/RuleMLWriter.java:305-331 | a term opens a Var element exactly once if it is a variable written outside a fact, and never otherwise |
| RuleMLText.IndVarFree | graal-io/graal-io-ruleml/src/main/java/fr/lirmm/graphik/graal/io/ruleml/RuleMLWriter.java:334-345 | an individual never opens a Var element |
| RuleMLText.VarElementCount | graal-io/graal-io-ruleml/src/main/java/fr/lirmm/graphik/graal/io/ruleml/RuleMLWriter.java:311-313 | the Var form of a variable opens Var exactly once |
| RuleMLText.TermsVarCount | graal-io/graal-io-ruleml/src/main/java/fr/lirmm/graphik/graal/io/ruleml/RuleMLWriter.java:305-314 | outside a fact the Var elements are exactly the variable occurrences; inside a fact there are none |
| RuleMLText.EqualityVarFree | graal-io/graal-io-ruleml/src/main/java/fr/lirmm/graphik/graal/io/ruleml/RuleMLWriter.java:292-297 | an equality written inside a fact holds no Var element |
| RuleMLText.RelVarFree | graal-io/graal-io-ruleml/src/main/java/fr/lirmm/graphik/graal/io/ruleml/RuleMLWriter.java:347-358 | a predicate holds no Var element |
| RuleMLText.StandardAtomVarFree | graal-io/graal-io-ruleml/src/main/java/fr/lirmm/graphik/graal/io/ruleml/RuleMLWriter.java:281-289 | a standard atom written inside a fact holds no Var element |
| RuleMLText.FactAtomVarFree | graal-io/graal-io-ruleml/src/main/java/fr/lirmm/graphik/graal/io/ruleml/RuleMLWriter.java:142-150 | an atom written as a fact holds no Var element, whatever its form |
| RuleMLText.FactAtomsHaveNoVar | graal-io/graal-io-ruleml/src/main/java/fr/lirmm/graphik/graal/io/ruleml/RuleMLWriter.java:152-161 | an atom set written as facts holds no Var element |
| RuleMLText.InlineRendering | graal-io/graal-io-ruleml/src/main/java/fr/lirmm/graphik/graal/io/ruleml/RuleMLWriter.java:380-393 | openBalise, a text and closeBalise write the tag on a new line at the current depth, the text, and the closing tag on the same line |
| RuleMLText.IndRendering | graal-io/graal-io-ruleml/src/main/java/fr/lirmm/graphik/graal/io/ruleml/RuleMLWriter.java:334-345 | an individual is written as the self-closing Ind element carrying its IRI iff its identifier is an IRI, and as an Ind element around its name otherwise |
| RuleMLText.RelRendering | graal-io/graal-io-ruleml/src/main/java/fr/lirmm/graphik/graal/io/ruleml/RuleMLWriter.java:347-358 | a predicate is written as the self-closing Rel element carrying its IRI iff its identifier is an IRI, and as a Rel element around its name otherwise |
| RuleMLText.VariableRendering | graal-io/graal-io-ruleml/src/main/java/fr/lirmm/graphik/graal/io/ruleml/RuleMLWriter.java:305-331 | a variable is written as an individual inside a fact and as a Var element outside one, and the two texts differ; a constant is written the same way in both places |
| RuleMLText.LiteralRendering | graal-io/graal-io-ruleml/src/main/java/fr/lirmm/graphik/graal/io/ruleml/RuleMLWriter.java:315-328 | a literal is written as a Data element typed "xsd:" plus the local name for an XML Schema datatype, and typed with the full datatype IRI otherwise |
| RuleMLText.Existentials | graal-io/graal-io-ruleml/src/main/java/fr/lirmm/graphik/graal/io/ruleml/RuleMLWriter.java:165 | the existential variables of a rule are exactly the head variables absent from the body, each once |
| RuleMLText.Universals | graal-io/graal-io-ruleml/src/main/java/fr/lirmm/graphik/graal/io/ruleml/RuleMLWriter.java:166-167 | the rule variables minus the existential ones are exactly the body variables, each once |
| RuleMLText.ExistVariables | graal-io/graal-io-ruleml/src/main/java/fr/lirmm/graphik/graal/io/ruleml/RuleMLWriter.java:214-215 | the query variables minus the answer variables, each once |
| RuleMLText.FactTokens | graal-io/graal-io-ruleml/src/main/java/fr/lirmm/graphik/graal/io/ruleml/RuleMLWriter.java:152-161 | write(AtomSet)'s events: an Assert element holding the atoms written as facts; FactBalanced and FactAtomsHaveNoVar state its shape |
| RuleMLText.HeadTokens | graal-io/graal-io-ruleml/src/main/java/fr/lirmm/graphik/graal/io/ruleml/RuleMLWriter.java:194-200 | the head's events: an And element around the head atoms when there are several, the atoms alone otherwise; HeadBalanced and ConclusionCount state it |
| RuleMLText.ConclusionTokens | graal-io/graal-io-ruleml/src/main/java/fr/lirmm/graphik/graal/io/ruleml/RuleMLWriter.java:188-203 | the conclusion's events: the head, inside an Exists element listing the existential variables when there are any; ConclusionBalanced and ConclusionCount state it |
| RuleMLText.RuleTokens | graal-io/graal-io-ruleml/src/main/java/fr/lirmm/graphik/graal/io/ruleml/RuleMLWriter.java:164-210 | write(Rule)'s events: an Assert element holding the label and a Forall over the universal variables around the implication; RuleBalanced, RuleExistsCount, RuleAndCount and RuleLabelWrittenIffNonEmpty state its shape |
| RuleMLText.ImplicationTokens | graal-io/graal-io-ruleml/src/main/java/fr/lirmm/graphik/graal/io/ruleml/RuleMLWriter.java:181-205 | the Implies element: an if element around the And of the body, then a then element around the conclusion; ImplicationBalanced and ImplicationCount state it |
| RuleMLText.QueryTokens | graal-io/graal-io-ruleml/src/main/java/fr/lirmm/graphik/graal/io/ruleml/RuleMLWriter.java:213-232 | write(ConjunctiveQuery)'s events: a Query element holding the label and an Exists over the non-answer variables around the And of the atoms; QueryBalanced, QueryWrapperCounts and QueryLabelWrittenIffNonEmpty state its shape |
| RuleMLText.CommentTokens | graal-io/graal-io-ruleml/src/main/java/fr/lirmm/graphik/graal/io/ruleml/RuleMLWriter.java:132-139 | writeComment's events: a blank line, the comment, and a line break; EntryBalanced and the writer's WriteComment state its text |
| RuleMLText.EntryTokens | graal-io/graal-io-ruleml/src/main/java/fr/lirmm/graphik/graal/io/ruleml/RuleMLWriter.java:132-232 | the events of one written entry, by its kind; EntryBalanced states that each kind is balanced |
| RuleMLText.EntriesTokens | graal-io/graal-io-ruleml/src/main/java/fr/lirmm/graphik/graal/io/ruleml/RuleMLWriter.java:132-232 | the events of the entries written one after the other; EntriesBalanced states that any such sequence is balanced |
| RuleMLText.PrologTokens | graal-io/graal-io-ruleml/src/main/java/fr/lirmm/graphik/graal/io/ruleml/RuleMLWriter.java:115-121 | init's events up to its comment: the XML declaration, the model declaration and the opened root element; RootName and PrologNest state that exactly the root element is left open |
| RuleMLText.CloseTokens | graal-io/graal-io-ruleml/src/main/java/fr/lirmm/graphik/graal/io/ruleml/RuleMLWriter.java:253-255 | close's events: the root element closed on its own line, then a line break; CloseNest, CloseText and DocumentEnding state its effect |
| RuleMLText.Document | graal-io/graal-io-ruleml/src/main/java/fr/lirmm/graphik/graal/io/ruleml/RuleMLWriter.java:115-257 | a whole document: init's prolog, every entry written, then close; DocumentBalanced states that it is well nested and returns the indentation to zero |
| RuleMLText.FactBalanced | graal-io/graal-io-ruleml/src/main/java/fr/lirmm/graphik/graal/io/ruleml/RuleMLWriter.java:152-161 | a fact block is balanced |
| RuleMLText.HeadBalanced | graal-io/graal-io-ruleml/src/main/java/fr/lirmm/graphik/graal/io/ruleml/RuleMLWriter.java:194-200 | the head, with or without its And wrapper, is balanced |
| RuleMLText.ConclusionBalanced | graal-io/graal-io-ruleml/src/main/java/fr/lirmm/graphik/graal/io/ruleml/RuleMLWriter.java:188-203 | the conclusion, with or without its Exists wrapper, is balanced |
| RuleMLText.ConditionBalanced | graal-io/graal-io-ruleml/src/main/java/fr/lirmm/graphik/graal/io/ruleml/RuleMLWriter.java:182-186 | the if element around the body's conjunction is balanced |
| RuleMLText.ImplicationBalanced | graal-io/graal-io-ruleml/src/main/java/fr/lirmm/graphik/graal/io/ruleml/RuleMLWriter.java:181-205 | the Implies element is balanced when its conclusion is |
| RuleMLText.ForallBalanced | graal-io/graal-io-ruleml/src/main/java/fr/lirmm/graphik/graal/io/ruleml/RuleMLWriter.java:177-206 | the Forall element around the universal variables and a balanced implication is balanced |
| RuleMLText.LabelledBalanced | graal-io/graal-io-ruleml/src/main/java/fr/lirmm/graphik/graal/io/ruleml/RuleMLWriter.java:175-176 | an element holding a label and then a balanced body is balanced |
| RuleMLText.RuleBalanced | graal-io/graal-io-ruleml/src/main/java/fr/lirmm/graphik/graal/io/ruleml/RuleMLWriter.java:164-210 | write(Rule) closes every tag it opens, in order, so the indentation is restored |
| RuleMLText.ExistsAndBalanced | graal-io/graal-io-ruleml/src/main/java/fr/lirmm/graphik/graal/io/ruleml/RuleMLWriter.java:221-228 | the query's Exists element around its variables and the And of its atoms is balanced |
| RuleMLText.QueryBalanced | graal-io/graal-io-ruleml/src/main/java/fr/lirmm/graphik/graal/io/ruleml/RuleMLWriter.java:213-232 | write(ConjunctiveQuery) closes every tag it opens, in order, so the indentation is restored |
| RuleMLText.EntryBalanced | graal-io/graal-io-ruleml/src/main/java/fr/lirmm/graphik/graal/io/ruleml/RuleMLWriter.java:132-232 | a comment, a fact, a fact block, a rule or a query is balanced |
| RuleMLText.EntriesBalanced | graal-io/graal-io-ruleml/src/main/java/fr/lirmm/graphik/graal/io/ruleml/RuleMLWriter.java:132-232 | any sequence of written entries is balanced |
| RuleMLText.RootName | graal-io/graal-io-ruleml/src/main/java/fr/lirmm/graphik/graal/io/ruleml/RuleMLWriter.java:119-121 | the root tag, with its namespace attributes, opens the element RuleML |
| RuleMLText.PrologNest | graal-io/graal-io-ruleml/src/main/java/fr/lirmm/graphik/graal/io/ruleml/RuleMLWriter.java:115-121 | init leaves exactly the root element open |
| RuleMLText.CloseNest | graal-io/graal-io-ruleml/src/main/java/fr/lirmm/graphik/graal/io/ruleml/RuleMLWriter.java:253-255 | close closes the root element and nothing else |
| RuleMLText.DocumentBalanced | graal-io/graal-io-ruleml/src/main/java/fr/lirmm/graphik/graal/io/ruleml/RuleMLWriter.java:115-257 | whatever is written between init and close, the document is well nested and ends with every element closed |
| RuleMLText.OpenDocumentDepth | graal-io/graal-io-ruleml/src/main/java/fr/lirmm/graphik/graal/io/ruleml/RuleMLWriter.java:115-232 | between entries the writer is one level deep, inside the root element |
| RuleMLText.CloseText | graal-io/graal-io-ruleml/src/main/java/fr/lirmm/graphik/graal/io/ruleml/RuleMLWriter.java:253-255 | the root's closing tag at depth one is written on a new line without indentation, followed by a line break |
| RuleMLText.ClosingAfter | graal-io/graal-io-ruleml/src/main/java/fr/lirmm/graphik/graal/io/ruleml/RuleMLWriter.java:253-255 | after any trace that leaves one element open, close appends a line break, the root's closing tag without indentation and a final line break |
| RuleMLText.DocumentEnding | graal-io/graal-io-ruleml/src/main/java/fr/lirmm/graphik/graal/io/ruleml/RuleMLWriter.java:253-255 | a closed document is the open document followed by a line break, the root's closing tag and a final line break |
| RuleMLText.ElementCountOther | graal-io/graal-io-ruleml/src/main/java/fr/lirmm/graphik/graal/io/ruleml/RuleMLWriter.java:380-402 | an element adds no tags other than its own |
| RuleMLText.AtomsWrapperFree | graal-io/graal-io-ruleml/src/main/java/fr/lirmm/graphik/graal/io/ruleml/RuleMLWriter.java:272-358 | atoms never open a structural wrapper such as And or Exists |
| RuleMLText.TermsWrapperFree | graal-io/graal-io-ruleml/src/main/java/fr/lirmm/graphik/graal/io/ruleml/RuleMLWriter.java:305-345 | terms never open a structural wrapper |
| RuleMLText.LabelWrapperFree | graal-io/graal-io-ruleml/src/main/java/fr/lirmm/graphik/graal/io/ruleml/RuleMLWriter.java:263-270 | a label opens no element |
| RuleMLText.ImplicationCount | graal-io/graal-io-ruleml/src/main/java/fr/lirmm/graphik/graal/io/ruleml/RuleMLWriter.java:181-205 | the implication holds one And element around the body plus the conclusion's own wrappers |
| RuleMLText.RuleCount | graal-io/graal-io-ruleml/src/main/java/fr/lirmm/graphik/graal/io/ruleml/RuleMLWriter.java:175-207 | outside the Assert and Forall tags, a rule's wrappers are those of its implication |
| RuleMLText.ConclusionCountOf | graal-io/graal-io-ruleml/src/main/java/fr/lirmm/graphik/graal/io/ruleml/RuleMLWriter.java:188-203 | the conclusion's wrappers are one Exists when there are existential variables and one And when the head has several atoms, nothing else |
| RuleMLText.ConclusionCount | graal-io/graal-io-ruleml/src/main/java/fr/lirmm/graphik/graal/io/ruleml/RuleMLWriter.java:188-203 | the conclusion holds an Exists element iff there are existential variables, and an And element iff the head has several atoms |
| RuleMLText.RuleExistsCount | graal-io/graal-io-ruleml/src/main/java/fr/lirmm/graphik/graal/io/ruleml/RuleMLWriter.java:188-203 | write(Rule) emits an Exists block iff the rule has existential variables, and then exactly one |
| RuleMLText.RuleAndCount | graal-io/graal-io-ruleml/src/main/java/fr/lirmm/graphik/graal/io/ruleml/RuleMLWriter.java:169-200 | write(Rule) emits one And around the body, and a second one around the head iff the head has more than one atom |
| RuleMLText.QueryCountOf | graal-io/graal-io-ruleml/src/main/java/fr/lirmm/graphik/graal/io/ruleml/RuleMLWriter.java:217-229 | apart from the Query tag, a query's wrappers are exactly one Exists and one And |
| RuleMLText.QueryWrapperCounts | graal-io/graal-io-ruleml/src/main/java/fr/lirmm/graphik/graal/io/ruleml/RuleMLWriter.java:221-228 | a written query always has exactly one Exists and one And element |
| RuleMLText.LabelFirst | graal-io/graal-io-ruleml/src/main/java/fr/lirmm/graphik/graal/io/ruleml/RuleMLWriter.java:263-270 | inside an element that holds a label and then a tag, a line break comes first iff the label is not empty, and it is the label's comment |
| RuleMLText.RuleLabelWrittenIffNonEmpty | graal-io/graal-io-ruleml/src/main/java/fr/lirmm/graphik/graal/io/ruleml/RuleMLWriter.java:175-177 | a rule's label is written as a comment at the start of the Assert element iff it is not empty |
| RuleMLText.QueryLabelWrittenIffNonEmpty | graal-io/graal-io-ruleml/src/main/java/fr/lirmm/graphik/graal/io/ruleml/RuleMLWriter.java:217-221 | a query's label is written as a comment at the start of the Query element iff it is not empty |
| RuleMLWriting.RuleMLWriter.constructor | graal-io/graal-io-ruleml/src/main/java/fr/lirmm/graphik/graal/io/ruleml/RuleMLWriter.java:93-97 | a new writer has run init: the invariant holds and the generation comment is the one entry written |
| RuleMLWriting.RuleMLWriter.Init | graal-io/graal-io-ruleml/src/main/java/fr/lirmm/graphik/graal/io/ruleml/RuleMLWriter.java:115-126 | init writes the two declarations, opens the root element and writes the generation comment |
| RuleMLWriting.RuleMLWriter.Append | graal-io/graal-io-ruleml/src/main/java/fr/lirmm/graphik/graal/io/ruleml/RuleMLWriter.java:374 | the output writer only appends |
| RuleMLWriting.RuleMLWriter.Write | graal-io/graal-io-ruleml/src/main/java/fr/lirmm/graphik/graal/io/ruleml/RuleMLWriter.java:134-135 | write appends the text as it is and keeps the invariant |
| RuleMLWriting.RuleMLWriter.Writeln | graal-io/graal-io-ruleml/src/main/java/fr/lirmm/graphik/graal/io/ruleml/RuleMLWriter.java:117-118 | writeln appends the text and a line break |
| RuleMLWriting.RuleMLWriter.IncrIndent | graal-io/graal-io-ruleml/src/main/java/fr/lirmm/graphik/graal/io/ruleml/RuleMLWriter.java:365-367 | incrIndent adds one to the counter |
| RuleMLWriting.RuleMLWriter.DecrIndent | graal-io/graal-io-ruleml/src/main/java/fr/lirmm/graphik/graal/io/ruleml/RuleMLWriter.java:369-371 | decrIndent takes one from the counter |
| RuleMLWriting.RuleMLWriter.WriteIndent | graal-io/graal-io-ruleml/src/main/java/fr/lirmm/graphik/graal/io/ruleml/RuleMLWriter.java:373-378 | writeIndent appends a line break and then the indent style once per level of the counter |
| RuleMLWriting.RuleMLWriter.WriteIndentToken | graal-io/graal-io-ruleml/src/main/java/fr/lirmm/graphik/graal/io/ruleml/RuleMLWriter.java:373-378 | writeIndent on its own is an indented line break in the trace and keeps the invariant |
| RuleMLWriting.RuleMLWriter.OpenBalise | graal-io/graal-io-ruleml/src/main/java/fr/lirmm/graphik/graal/io/ruleml/RuleMLWriter.java:380-386 | openBalise writes the tag on a new line at the old depth and adds one to the counter |
| RuleMLWriting.RuleMLWriter.CloseBalise | graal-io/graal-io-ruleml/src/main/java/fr/lirmm/graphik/graal/io/ruleml/RuleMLWriter.java:388-393 | closeBalise takes one from the counter and writes the closing tag on the same line |
| RuleMLWriting.RuleMLWriter.CloseBaliseWithReturnLine | graal-io/graal-io-ruleml/src/main/java/fr/lirmm/graphik/graal/io/ruleml/RuleMLWriter.java:395-402 | closeBaliseWithReturnLine takes one from the counter and writes the closing tag on a new line at the new depth |
| RuleMLWriting.RuleMLWriter.WriteInd | graal-io/graal-io-ruleml/src/main/java/fr/lirmm/graphik/graal/io/ruleml/RuleMLWriter.java:334-345 | writeInd emits the individual's form and leaves the counter unchanged |
| RuleMLWriting.RuleMLWriter.WritePredicate | graal-io/graal-io-ruleml/src/main/java/fr/lirmm/graphik/graal/io/ruleml/RuleMLWriter.java:347-358 | writePredicate emits the predicate's form and leaves the counter unchanged |
| RuleMLWriting.RuleMLWriter.WriteTerm | graal-io/graal-io-ruleml/src/main/java/fr/lirmm/graphik/graal/io/ruleml/RuleMLWriter.java:305-332 | writeTerm emits the form of the term's kind, which depends on inFact for a variable, and leaves the counter unchanged |
| RuleMLWriting.RuleMLWriter.WriteTerms | graal-io/graal-io-ruleml/src/main/java/fr/lirmm/graphik/graal/io/ruleml/RuleMLWriter.java:285-287 | the loop over terms emits every term in order and leaves the counter unchanged |
| RuleMLWriting.RuleMLWriter.WriteStandardAtom | graal-io/graal-io-ruleml/src/main/java/fr/lirmm/graphik/graal/io/ruleml/RuleMLWriter.java:281-289 | writeStandardAtom emits an Atom element around the predicate and the terms |
| RuleMLWriting.RuleMLWriter.WriteEquality | graal-io/graal-io-ruleml/src/main/java/fr/lirmm/graphik/graal/io/ruleml/RuleMLWriter.java:292-297 | writeEquality emits an Equal element around the two terms |
| RuleMLWriting.RuleMLWriter.WriteBottom | graal-io/graal-io-ruleml/src/main/java/fr/lirmm/graphik/graal/io/ruleml/RuleMLWriter.java:300-303 | writeBottom emits an empty Or on a new line |
| RuleMLWriting.RuleMLWriter.WriteAtom | graal-io/graal-io-ruleml/src/main/java/fr/lirmm/graphik/graal/io/ruleml/RuleMLWriter.java:281-303 | writeAtom emits the equality, absurd or standard form of the atom and leaves the counter unchanged |
| RuleMLWriting.RuleMLWriter.WriteAtomSet | graal-io/graal-io-ruleml/src/main/java/fr/lirmm/graphik/graal/io/ruleml/RuleMLWriter.java:272-278 | writeAtomSet emits every atom in iteration order and leaves the counter unchanged |
| RuleMLWriting.RuleMLWriter.WriteLabel | graal-io/graal-io-ruleml/src/main/java/fr/lirmm/graphik/graal/io/ruleml/RuleMLWriter.java:263-270 | writeLabel emits the label's comment on a new line, and nothing for an empty label |
| RuleMLWriting.RuleMLWriter.WriteComment | graal-io/graal-io-ruleml/src/main/java/fr/lirmm/graphik/graal/io/ruleml/RuleMLWriter.java:132-139 | writeComment appends a blank line, the comment and a line break, and records the entry |
| RuleMLWriting.RuleMLWriter.WriteFact | graal-io/graal-io-ruleml/src/main/java/fr/lirmm/graphik/graal/io/ruleml/RuleMLWriter.java:142-150 | write(Atom) emits the atom asserted with inFact set while it is written; afterwards inFact is false and the counter is back inside the root |
| RuleMLWriting.RuleMLWriter.WriteFacts | graal-io/graal-io-ruleml/src/main/java/fr/lirmm/graphik/graal/io/ruleml/RuleMLWriter.java:152-161 | write(AtomSet) emits the atoms asserted with inFact set while they are written; afterwards inFact is false and the counter is back inside the root |
| RuleMLWriting.RuleMLWriter.WriteHead | graal-io/graal-io-ruleml/src/main/java/fr/lirmm/graphik/graal/io/ruleml/RuleMLWriter.java:194-200 | the head is wrapped in And iff it has more than one atom |
| RuleMLWriting.RuleMLWriter.WriteConclusion | graal-io/graal-io-ruleml/src/main/java/fr/lirmm/graphik/graal/io/ruleml/RuleMLWriter.java:187-204 | the head goes under an Exists listing the existential variables iff there are any |
| RuleMLWriting.RuleMLWriter.WriteImplication | graal-io/graal-io-ruleml/src/main/java/fr/lirmm/graphik/graal/io/ruleml/RuleMLWriter.java:181-205 | the Implies element holds the body's conjunction under if and the conclusion under then |
| RuleMLWriting.RuleMLWriter.WriteQuantifiedImplication | graal-io/graal-io-ruleml/src/main/java/fr/lirmm/graphik/graal/io/ruleml/RuleMLWriter.java:177-206 | the Forall element holds the universal variables and then the implication |
| RuleMLWriting.RuleMLWriter.WriteLabelledRule | graal-io/graal-io-ruleml/src/main/java/fr/lirmm/graphik/graal/io/ruleml/RuleMLWriter.java:176-206 | the content of the rule's Assert element is the label and then the Forall element |
| RuleMLWriting.RuleMLWriter.EmitRule | graal-io/graal-io-ruleml/src/main/java/fr/lirmm/graphik/graal/io/ruleml/RuleMLWriter.java:175-207 | write(Rule) emits exactly the rule's trace and leaves the counter unchanged |
| RuleMLWriting.RuleMLWriter.WriteRule | graal-io/graal-io-ruleml/src/main/java/fr/lirmm/graphik/graal/io/ruleml/RuleMLWriter.java:164-210 | write(Rule) keeps the writer's invariant and records the rule as written |
| RuleMLWriting.RuleMLWriter.WriteQueryLabel | graal-io/graal-io-ruleml/src/main/java/fr/lirmm/graphik/graal/io/ruleml/RuleMLWriter.java:218-220 | the query's label is written only when it is not empty |
| RuleMLWriting.RuleMLWriter.WriteQueryBody | graal-io/graal-io-ruleml/src/main/java/fr/lirmm/graphik/graal/io/ruleml/RuleMLWriter.java:214-228 | the Exists element holds the query variables minus the answer variables, then the And of the atoms |
| RuleMLWriting.RuleMLWriter.EmitQuery | graal-io/graal-io-ruleml/src/main/java/fr/lirmm/graphik/graal/io/ruleml/RuleMLWriter.java:217-229 | write(ConjunctiveQuery) emits exactly the query's trace and leaves the counter unchanged |
| RuleMLWriting.RuleMLWriter.WriteQuery | graal-io/graal-io-ruleml/src/main/java/fr/lirmm/graphik/graal/io/ruleml/RuleMLWriter.java:213-232 | write(ConjunctiveQuery) keeps the writer's invariant and records the query as written |
| RuleMLWriting.RuleMLWriter.Close | graal-io/graal-io-ruleml/src/main/java/fr/lirmm/graphik/graal/io/ruleml/RuleMLWriter.java:253-257 | close appends the root's closing tag on a new line and a final line break; the whole document is then well nested, with the counter back at zero |
| RuleMLWriting.StepTableRenders | graal-io/graal-io-ruleml/src/main/java/fr/lirmm/graphik/graal/io/ruleml/RuleMLWriter.java:373-402 | what the writer has appended step by step is the rendering of its trace, and the counter is the trace's depth |
| RuleMLWriting.ValidRenders | graal-io/graal-io-ruleml/src/main/java/fr/lirmm/graphik/graal/io/ruleml/RuleMLWriter.java:115-232 | between public calls the output is the rendering of the prolog and the entries written, and the counter is one |

## Left out

- SqlHomomorphism, SqlConjunctiveQueriesUnionSolver and DefaultUCQHomomorphism are not part of this model. They are database adapters, or delegate to classes whose source is not available.
- The chase and the demo drivers (`App`, `Test`) are not part of this model. Only the facts and the first rule head of `Test` are used, as a worked example in `ChaseExample`.
- The singleton `getInstance`, the logging, and the wrapping of exceptions into `HomomorphismException` are left out. No modelled operation can fail.
- The iteration orders of the Java sets are not modelled as the JVM produces them:
  - the store's term set (`facts.getTerms()`) is the parameter `domain`, and every result holds for any enumeration that lists each term once;
  - a pattern's variable collection (`getTerms(Term.Type.VARIABLE)`), `getExistentials`, `getVariables` and the query's variable set are enumerated in first-occurrence order, atom by atom and term by term.
- `SubstitutionReader`/`IteratorSubstitutionReader`: `execute` returns the list of answers, not a lazy reader.
- `remove(0)` on the ordered variable list and its copy per branch are modelled as passing the tail of an immutable sequence. Siblings cannot see each other's bindings because substitutions and lists are values.
- RuleMLWriter.write(Prefix) and write(NegativeConstraint) only log a warning and write nothing, so they are left out. So are the `write(Object)` dispatch of the base writer and `writeToString`.
- The constructors that open a file, an output stream or standard output are left out: the output is a string that only grows, and `init`'s swallowed IOException cannot occur.
- `super.close()` (closing the underlying stream) is left out. Writing after `close` is excluded by the writer's precondition rather than modelled as an error.
- `writeAtom`'s dispatch belongs to the base writer, which is not part of this model. The equality predicate is taken as `=`/2 with at least two terms, and the absurd atom as `bottom`/0.
- `toString` of identifiers and datatypes is modelled as follows:
  - an IRI prints as prefix followed by local name;
  - a name prints as itself;
  - a literal's value prints as its stored string.

  No XML escaping is applied, matching the source, which writes names and values unescaped.
- RuleMLWriting.RuleMLWriter.Write: the base writer's `write` is taken to append its argument verbatim to the output. The base writer is not part of this model.
- RuleMLWriting.RuleMLWriter.Writeln: the base writer's `writeln` is taken to append its argument and then "\n". The platform line separator is not modelled.
- RuleMLWriting.RuleMLWriter.WriteFact: the single atom is recorded as a fact block of one atom, whose text is the same as write(Atom)'s.
- RuleMLWriting.RuleMLWriter.WriteRule: the Java method writes the whole rule in one body. The model splits it into EmitRule and its helpers (label, Forall, Implies, conclusion, head), which emit the same calls in the same order.
- RuleMLWriting.RuleMLWriter.WriteQuery: likewise split into EmitQuery, WriteQueryLabel and WriteQueryBody, with the same calls in the same order.
- RuleMLWriting.RuleMLWriter.WriteComment and the other public write methods state their output through the writer's invariant and ValidRenders (output = rendering of the prolog and the entries written), not as a literal string in each postcondition. WriteComment and Close are the exceptions: they also state their appended text literally.
