/**
 * The text the RuleML writer produces, described as a trace of writer
 * events (tokens). An event is an element opened on a new line, an element
 * closed inline or on a new line, a bare new line with indentation, or raw
 * text. Rendering a trace threads the indentation depth through it exactly
 * as the writer's counter does; nesting a trace checks that every closing
 * tag matches the innermost open element.
 *
 * Each writer operation is described by the token list it emits, and the
 * properties of the output (balanced tags, restored indentation, which
 * wrappers appear, how terms are written) are proved about those lists.
 */
module RuleMLText {
  import opened Terms

  datatype Option<T> = None | Some(value: T)

  datatype Token =
    | Open(balise: string)     // new line, indentation, "<balise>", one level deeper
    | Close(name: string)      // one level up, "</name>" on the same line
    | CloseLine(name: string)  // one level up, new line, indentation, "</name>"
    | Indent                   // new line, indentation
    | Text(s: string)          // the text itself

  // ---------------------------------------------------------------------
  // Rendering
  // ---------------------------------------------------------------------

  /** The indent style: one level of indentation. */
  const IndentStyle: string := "  "

  /** n copies of the two-space indent style; nothing when n is not positive. */
  function Spaces(n: int): (r: string)
    ensures |r| == if n <= 0 then 0 else |IndentStyle| * n
    ensures forall i :: 0 <= i < |r| ==> r[i] == IndentStyle[i % |IndentStyle|]
  {
    seq(if n <= 0 then 0 else 2 * n, _ => ' ')
  }

  /** One more level of indentation is one more copy of the indent style. */
  lemma SpacesSnoc(n: nat)
    ensures Spaces(n + 1) == Spaces(n) + IndentStyle
  {
    assert forall i :: 0 <= i < |Spaces(n + 1)| ==> Spaces(n + 1)[i] == (Spaces(n) + IndentStyle)[i];
  }

  /** A line break followed by n levels of indentation. */
  function IndentText(n: int): string {
    "\n" + Spaces(n)
  }

  /** How a token moves the indentation depth. */
  function Delta(t: Token): int {
    match t
    case Open(_) => 1
    case Close(_) => -1
    case CloseLine(_) => -1
    case _ => 0
  }

  /** The text of one token written at depth d. */
  function RenderToken(t: Token, d: int): string {
    match t
    case Open(b) => IndentText(d) + "<" + b + ">"
    case Close(n) => "</" + n + ">"
    case CloseLine(n) => IndentText(d - 1) + "</" + n + ">"
    case Indent => IndentText(d)
    case Text(s) => s
  }

  /** The net change of depth over a trace. */
  function Depth(ts: seq<Token>): int {
    if ts == [] then 0 else Delta(ts[0]) + Depth(ts[1..])
  }

  /** The texts of a trace's tokens, each written at the depth the tokens before it leave. */
  function Pieces(ts: seq<Token>, d: int): (ps: seq<string>)
    ensures |ps| == |ts|
  {
    if ts == [] then []
    else Pieces(ts[..|ts| - 1], d) + [RenderToken(ts[|ts| - 1], d + Depth(ts[..|ts| - 1]))]
  }

  /** Strings written one after the other. */
  function Join(ps: seq<string>): string {
    if ps == [] then "" else Join(ps[..|ps| - 1]) + ps[|ps| - 1]
  }

  /** The text of a trace written from depth d. */
  function RenderFrom(ts: seq<Token>, d: int): string {
    Join(Pieces(ts, d))
  }

  lemma JoinSnoc(ps: seq<string>, x: string)
    ensures Join(ps + [x]) == Join(ps) + x
  {
    assert (ps + [x])[..|ps|] == ps;
  }

  lemma PiecesSnoc(ts: seq<Token>, t: Token, d: int)
    ensures Pieces(ts + [t], d) == Pieces(ts, d) + [RenderToken(t, d + Depth(ts))]
  {
    assert (ts + [t])[..|ts|] == ts;
  }

  lemma {:induction false} DepthAppend(a: seq<Token>, b: seq<Token>)
    ensures Depth(a + b) == Depth(a) + Depth(b)
  {
    if a == [] {
      assert a + b == b;
    } else {
      assert (a + b)[0] == a[0] && (a + b)[1..] == a[1..] + b;
      DepthAppend(a[1..], b);
    }
  }



  /** Writing one more token: its text at the depth the trace leaves, and its change of depth. */
  lemma RenderSnoc(ts: seq<Token>, t: Token, d: int)
    ensures RenderFrom(ts + [t], d) == RenderFrom(ts, d) + RenderToken(t, d + Depth(ts))
    ensures Depth(ts + [t]) == Depth(ts) + Delta(t)
  {
    PiecesSnoc(ts, t, d);
    JoinSnoc(Pieces(ts, d), RenderToken(t, d + Depth(ts)));
    DepthAppend(ts, [t]);
    assert [t][1..] == [];
  }

  /** A trace of one token. */
  lemma RenderSingle(t: Token, d: int)
    ensures RenderFrom([t], d) == RenderToken(t, d)
    ensures Depth([t]) == Delta(t)
  {
    RenderSnoc([], t, d);
    assert [] + [t] == [t];
    assert "" + RenderToken(t, d) == RenderToken(t, d);
  }

  // ---------------------------------------------------------------------
  // Nesting
  // ---------------------------------------------------------------------

  /** The element name of an opening tag: the text before its first space. */
  function ElementName(b: string): (n: string)
    ensures n <= b && ' ' !in n
    ensures |n| < |b| ==> b[|n|] == ' '
  {
    if b == [] || b[0] == ' ' then "" else [b[0]] + ElementName(b[1..])
  }

  lemma ElementNameNoSpace(b: string)
    requires ' ' !in b
    ensures ElementName(b) == b
  {
  }

  /** The stack of open element names after one token, or None when a closing tag does not match. */
  function NestStep(st: seq<string>, t: Token): Option<seq<string>> {
    match t
    case Open(b) => Some(st + [ElementName(b)])
    case Close(n) => if st != [] && st[|st| - 1] == n then Some(st[..|st| - 1]) else None
    case CloseLine(n) => if st != [] && st[|st| - 1] == n then Some(st[..|st| - 1]) else None
    case _ => Some(st)
  }

  function Nest(st: seq<string>, ts: seq<Token>): Option<seq<string>>
    decreases |ts|
  {
    if ts == [] then Some(st)
    else
      match NestStep(st, ts[0])
      case None => None
      case Some(st') => Nest(st', ts[1..])
  }

  /** Every tag the trace opens it closes, in order, and it closes nothing it did not open. */
  ghost predicate Balanced(ts: seq<Token>) {
    forall st :: Nest(st, ts) == Some(st)
  }

  lemma {:induction false} NestAppend(st: seq<string>, a: seq<Token>, b: seq<Token>)
    ensures Nest(st, a + b) == match Nest(st, a) case None => None case Some(st') => Nest(st', b)
    decreases |a|
  {
    if a == [] {
      assert a + b == b;
    } else {
      assert (a + b)[0] == a[0] && (a + b)[1..] == a[1..] + b;
      match NestStep(st, a[0])
      case None =>
      case Some(st') => NestAppend(st', a[1..], b);
    }
  }

  /** The depth reached is the height of the stack of open elements. */
  lemma {:induction false} NestDepth(st: seq<string>, ts: seq<Token>)
    requires Nest(st, ts).Some?
    ensures |Nest(st, ts).value| == |st| + Depth(ts)
    decreases |ts|
  {
    if ts != [] {
      var st' := NestStep(st, ts[0]).value;
      NestDepth(st', ts[1..]);
    }
  }

  /** A balanced trace leaves the depth where it found it. */
  lemma BalancedDepth(ts: seq<Token>)
    requires Balanced(ts)
    ensures Depth(ts) == 0
  {
    assert Nest([], ts) == Some([]);
    NestDepth([], ts);
  }

  lemma BalancedConcat(a: seq<Token>, b: seq<Token>)
    requires Balanced(a) && Balanced(b)
    ensures Balanced(a + b)
  {
    forall st
      ensures Nest(st, a + b) == Some(st)
    {
      NestAppend(st, a, b);
    }
  }

  lemma BalancedConcat3(a: seq<Token>, b: seq<Token>, c: seq<Token>)
    requires Balanced(a) && Balanced(b) && Balanced(c)
    ensures Balanced(a + b + c)
  {
    BalancedConcat(a, b);
    BalancedConcat(a + b, c);
  }

  /** A trace of line breaks and text opens and closes nothing. */
  lemma {:induction false} PlainBalanced(ts: seq<Token>)
    requires forall t :: t in ts ==> t.Indent? || t.Text?
    ensures Balanced(ts)
    ensures OpensWithin(ts, {})
    decreases |ts|
  {
    if ts != [] {
      PlainBalanced(ts[1..]);
      forall st
        ensures Nest(st, ts) == Some(st)
      {
        assert ts[0] in ts;
        assert NestStep(st, ts[0]) == Some(st);
      }
    }
  }

  // ---------------------------------------------------------------------
  // Element shapes
  // ---------------------------------------------------------------------

  /** An element whose content goes on its own lines: openBalise, content, closeBaliseWithReturnLine. */
  function Element(name: string, inner: seq<Token>): seq<Token> {
    [Open(name)] + inner + [CloseLine(name)]
  }

  /** An element whose content is one text on the tag's line: openBalise, write, closeBalise. */
  function InlineElement(name: string, s: string): seq<Token> {
    [Open(name), Text(s), Close(name)]
  }

  lemma NestSingle(st: seq<string>, t: Token)
    ensures Nest(st, [t]) == NestStep(st, t)
  {
    assert [t][1..] == [];
  }

  /** An element pushes its name, runs its content one level deeper, and pops the name again. */
  lemma ElementNest(st: seq<string>, name: string, inner: seq<Token>)
    requires ' ' !in name
    requires Nest(st + [name], inner) == Some(st + [name])
    ensures Nest(st, Element(name, inner)) == Some(st)
  {
    ElementNameNoSpace(name);
    NestSingle(st, Open(name));
    NestSingle(st + [name], CloseLine(name));
    assert (st + [name])[..|st|] == st;
    assert Element(name, inner) == [Open(name)] + (inner + [CloseLine(name)]);
    NestAppend(st, [Open(name)], inner + [CloseLine(name)]);
    NestAppend(st + [name], inner, [CloseLine(name)]);
  }

  lemma BalancedElement(name: string, inner: seq<Token>)
    requires ' ' !in name && Balanced(inner)
    ensures Balanced(Element(name, inner))
  {
    forall st
      ensures Nest(st, Element(name, inner)) == Some(st)
    {
      ElementNest(st, name, inner);
    }
  }

  lemma BalancedInlineElement(name: string, s: string)
    requires ' ' !in name
    ensures Balanced(InlineElement(name, s))
  {
    ElementNameNoSpace(name);
    var ts := InlineElement(name, s);
    assert ts[1..] == [Text(s), Close(name)] && ts[1..][1..] == [Close(name)] && ts[1..][1..][1..] == [];
    forall st
      ensures Nest(st, ts) == Some(st)
    {
      assert (st + [name])[..|st|] == st;
      assert Nest(st + [name], ts[1..][1..]) == Some(st);
    }
  }

  /** The elements that the tokens of a term or an atom may open. */
  const AtomLevelNames: set<string> := {"Atom", "Rel", "Ind", "Var", "Equal"}

  /** Every element the trace opens has one of the given names. */
  ghost predicate OpensWithin(ts: seq<Token>, names: set<string>) {
    forall t :: t in ts && t.Open? ==> t.balise in names
  }

  /** The occurrences of a token in an element: those of its content, plus its own tags. */
  lemma ElementCount(name: string, inner: seq<Token>, t: Token)
    ensures multiset(Element(name, inner))[t]
         == (if t == Open(name) then 1 else 0) + multiset(inner)[t] + (if t == CloseLine(name) then 1 else 0)
  {
    assert multiset(Element(name, inner)) == multiset{Open(name)} + multiset(inner) + multiset{CloseLine(name)};
  }

  // ---------------------------------------------------------------------
  // Terms, predicates and atoms
  // ---------------------------------------------------------------------

  /** The namespace of the XML Schema datatypes. */
  const XsdPrefix: string := "http://www.w3.org/2001/XMLSchema#"

  /** How a datatype is named in xsi:type: "xsd:" and the local name for XML Schema types, the full IRI otherwise. */
  function TypeName(dt: Iri): string {
    if dt.prefix == XsdPrefix then "xsd:" + dt.localname else IriString(dt)
  }

  /** writeInd: a self-closing element carrying the IRI for an IRI, an element holding the text otherwise. */
  function IndTokens(id: Identifier): seq<Token> {
    match id
    case UriId(u) => [Indent, Text("<Ind iri=\""), Text(IriString(u)), Text("\"/>")]
    case NameId(n) => InlineElement("Ind", n)
  }

  /** writePredicate: as writeInd, with the element Rel. */
  function RelTokens(id: Identifier): seq<Token> {
    match id
    case UriId(u) => [Indent, Text("<Rel iri=\""), Text(IriString(u)), Text("\"/>")]
    case NameId(n) => InlineElement("Rel", n)
  }

  /** writeTerm: a variable is an individual inside a fact and a Var elsewhere; a constant is an individual; a literal is a typed Data element. */
  function TermTokens(t: Term, inFact: bool): seq<Token> {
    match t
    case Variable(id) => if inFact then IndTokens(id) else InlineElement("Var", IdentifierString(id))
    case Literal(v, dt) => [Indent, Text("<Data xsi:type=\""), Text(TypeName(dt)), Text("\">"), Text(v), Text("</Data>")]
    case Constant(id) => IndTokens(id)
  }

  /** The terms written one after the other. */
  function TermsTokens(ts: seq<Term>, inFact: bool): seq<Token> {
    if ts == [] then []
    else TermsTokens(ts[..|ts| - 1], inFact) + TermTokens(ts[|ts| - 1], inFact)
  }

  /** The equality predicate, written as an Equal element. */
  const EqualityPredicate: Predicate := Predicate(NameId("="), 2)

  /** The predicate of the absurd atom, written as an empty disjunction. */
  const BottomPredicate: Predicate := Predicate(NameId("bottom"), 0)

  /** writeStandardAtom: an Atom element holding the predicate and then every term. */
  function StandardAtomTokens(a: Atom, inFact: bool): seq<Token> {
    Element("Atom", RelTokens(a.pred.id) + TermsTokens(a.terms, inFact))
  }

  /** writeEquality: an Equal element holding the two terms. */
  function EqualityTokens(t1: Term, t2: Term, inFact: bool): seq<Token> {
    Element("Equal", TermTokens(t1, inFact) + TermTokens(t2, inFact))
  }

  /** writeBottom: an empty disjunction on its own line. */
  function BottomTokens(): seq<Token> {
    [Indent, Text("<Or/>")]
  }

  /** writeAtom: equality atoms, the absurd atom and standard atoms each have their own form. */
  function AtomTokens(a: Atom, inFact: bool): seq<Token> {
    if a.pred == EqualityPredicate && |a.terms| >= 2 then EqualityTokens(a.terms[0], a.terms[1], inFact)
    else if a.pred == BottomPredicate then BottomTokens()
    else StandardAtomTokens(a, inFact)
  }

  /** writeAtomSet: the atoms written one after the other. */
  function AtomsTokens(atoms: seq<Atom>, inFact: bool): seq<Token> {
    if atoms == [] then []
    else AtomsTokens(atoms[..|atoms| - 1], inFact) + AtomTokens(atoms[|atoms| - 1], inFact)
  }

  /** writeLabel: a comment on its own line, only for a non-empty label. */
  function LabelTokens(text: string): seq<Token> {
    if text == [] then [] else [Indent, Text("<!-- "), Text(text), Text(" -->")]
  }

  lemma IndBalanced(id: Identifier)
    ensures Balanced(IndTokens(id))
    ensures OpensWithin(IndTokens(id), AtomLevelNames)
  {
    match id
    case UriId(u) => PlainBalanced(IndTokens(id));
    case NameId(n) => BalancedInlineElement("Ind", n);
  }

  lemma TermBalanced(t: Term, inFact: bool)
    ensures Balanced(TermTokens(t, inFact))
    ensures OpensWithin(TermTokens(t, inFact), AtomLevelNames)
  {
    match t
    case Variable(id) =>
      if inFact {
        IndBalanced(id);
      } else {
        BalancedInlineElement("Var", IdentifierString(id));
      }
    case Constant(id) => IndBalanced(id);
    case Literal(_, _) => PlainBalanced(TermTokens(t, inFact));
  }

  lemma {:induction false} TermsBalanced(ts: seq<Term>, inFact: bool)
    ensures Balanced(TermsTokens(ts, inFact))
    ensures OpensWithin(TermsTokens(ts, inFact), AtomLevelNames)
  {
    if ts != [] {
      TermsBalanced(ts[..|ts| - 1], inFact);
      TermBalanced(ts[|ts| - 1], inFact);
      BalancedConcat(TermsTokens(ts[..|ts| - 1], inFact), TermTokens(ts[|ts| - 1], inFact));
    }
  }

  lemma RelBalanced(id: Identifier)
    ensures Balanced(RelTokens(id))
    ensures OpensWithin(RelTokens(id), AtomLevelNames)
  {
    match id
    case UriId(u) => PlainBalanced(RelTokens(id));
    case NameId(n) => BalancedInlineElement("Rel", n);
  }

  lemma AtomBalanced(a: Atom, inFact: bool)
    ensures Balanced(AtomTokens(a, inFact))
    ensures OpensWithin(AtomTokens(a, inFact), AtomLevelNames)
  {
    if a.pred == EqualityPredicate && |a.terms| >= 2 {
      TermBalanced(a.terms[0], inFact);
      TermBalanced(a.terms[1], inFact);
      BalancedConcat(TermTokens(a.terms[0], inFact), TermTokens(a.terms[1], inFact));
      BalancedElement("Equal", TermTokens(a.terms[0], inFact) + TermTokens(a.terms[1], inFact));
    } else if a.pred == BottomPredicate {
      PlainBalanced(BottomTokens());
    } else {
      RelBalanced(a.pred.id);
      TermsBalanced(a.terms, inFact);
      BalancedConcat(RelTokens(a.pred.id), TermsTokens(a.terms, inFact));
      BalancedElement("Atom", RelTokens(a.pred.id) + TermsTokens(a.terms, inFact));
    }
  }

  /** The tokens of a list of atoms open and close their own elements only, leaving the depth unchanged. */
  lemma {:induction false} AtomsBalanced(atoms: seq<Atom>, inFact: bool)
    ensures Balanced(AtomsTokens(atoms, inFact))
    ensures OpensWithin(AtomsTokens(atoms, inFact), AtomLevelNames)
    ensures Depth(AtomsTokens(atoms, inFact)) == 0
  {
    if atoms != [] {
      AtomsBalanced(atoms[..|atoms| - 1], inFact);
      AtomBalanced(atoms[|atoms| - 1], inFact);
      BalancedConcat(AtomsTokens(atoms[..|atoms| - 1], inFact), AtomTokens(atoms[|atoms| - 1], inFact));
    }
    BalancedDepth(AtomsTokens(atoms, inFact));
  }

  lemma LabelBalanced(text: string)
    ensures Balanced(LabelTokens(text))
    ensures OpensWithin(LabelTokens(text), {})
  {
    PlainBalanced(LabelTokens(text));
  }

  /** A term's tokens open a Var element once if it is a variable written outside a fact, and never otherwise. */
  lemma TermVarCount(t: Term, inFact: bool)
    ensures multiset(TermTokens(t, inFact))[Open("Var")] == if t.Variable? && !inFact then 1 else 0
  {
    match t
    case Variable(id) =>
      if inFact {
        IndVarFree(id);
      } else {
        VarElementCount(IdentifierString(id));
      }
    case Constant(id) =>
      IndVarFree(id);
    case Literal(_, _) =>
      assert Open("Var") !in TermTokens(t, inFact);
  }

  /** An individual is never written as a Var element. */
  lemma IndVarFree(id: Identifier)
    ensures Open("Var") !in IndTokens(id)
  {
    match id
    case UriId(u) =>
    case NameId(n) => assert "Ind"[0] != "Var"[0];
  }

  /** A Var element opens Var exactly once. */
  lemma VarElementCount(n: string)
    ensures multiset(InlineElement("Var", n))[Open("Var")] == 1
  {
    assert InlineElement("Var", n) == [Open("Var")] + [Text(n), Close("Var")];
    assert Open("Var") !in [Text(n), Close("Var")];
  }

  /**
   * Outside a fact every variable occurrence, and nothing else, is written
   * as a Var element; inside a fact none is.
   */
  lemma {:induction false} TermsVarCount(ts: seq<Term>, inFact: bool)
    ensures multiset(TermsTokens(ts, inFact))[Open("Var")] == if inFact then 0 else |VariablesOfTerms(ts)|
  {
    if ts != [] {
      var pre := ts[..|ts| - 1];
      var t := ts[|ts| - 1];
      TermsVarCount(pre, inFact);
      TermVarCount(t, inFact);
      assert multiset(TermsTokens(ts, inFact)) == multiset(TermsTokens(pre, inFact)) + multiset(TermTokens(t, inFact));
    }
  }

  lemma EqualityVarFree(t1: Term, t2: Term)
    ensures multiset(EqualityTokens(t1, t2, true))[Open("Var")] == 0
  {
    TermVarCount(t1, true);
    TermVarCount(t2, true);
    var inner := TermTokens(t1, true) + TermTokens(t2, true);
    assert multiset(inner) == multiset(TermTokens(t1, true)) + multiset(TermTokens(t2, true));
    ElementCount("Equal", inner, Open("Var"));
  }

  lemma RelVarFree(id: Identifier)
    ensures multiset(RelTokens(id))[Open("Var")] == 0
  {
    assert "Rel"[0] != "Var"[0];
    assert Open("Var") !in RelTokens(id);
  }

  lemma StandardAtomVarFree(a: Atom)
    ensures multiset(StandardAtomTokens(a, true))[Open("Var")] == 0
  {
    var rel := RelTokens(a.pred.id);
    var terms := TermsTokens(a.terms, true);
    TermsVarCount(a.terms, true);
    RelVarFree(a.pred.id);
    CountAppend(rel, terms, Open("Var"));
    ElementCountOther("Atom", rel + terms, Open("Var"));
  }

  lemma FactAtomVarFree(a: Atom)
    ensures multiset(AtomTokens(a, true))[Open("Var")] == 0
  {
    if a.pred == EqualityPredicate && |a.terms| >= 2 {
      EqualityVarFree(a.terms[0], a.terms[1]);
    } else if a.pred == BottomPredicate {
      assert Open("Var") !in BottomTokens();
    } else {
      StandardAtomVarFree(a);
    }
  }

  /** Inside a fact, no atom contains a Var element: facts carry no variables of their own. */
  lemma {:induction false} FactAtomsHaveNoVar(atoms: seq<Atom>)
    ensures multiset(AtomsTokens(atoms, true))[Open("Var")] == 0
  {
    if atoms != [] {
      var pre := atoms[..|atoms| - 1];
      var a := atoms[|atoms| - 1];
      FactAtomsHaveNoVar(pre);
      FactAtomVarFree(a);
      assert multiset(AtomsTokens(atoms, true)) == multiset(AtomsTokens(pre, true)) + multiset(AtomTokens(a, true));
    }
  }

  // ---------------------------------------------------------------------
  // The rendered forms of individuals, predicates and terms
  // ---------------------------------------------------------------------

  /** The text ends with the self-closing "/>". */
  predicate SelfClosing(s: string) {
    |s| >= 2 && s[|s| - 2..] == "/>"
  }

  lemma InlineRendering(name: string, s: string, d: int)
    ensures RenderFrom(InlineElement(name, s), d) == IndentText(d) + ("<" + name + ">") + s + ("</" + name + ">")
  {
    var t1 := [Open(name)];
    var t2 := t1 + [Text(s)];
    assert InlineElement(name, s) == t2 + [Close(name)];
    RenderSingle(Open(name), d);
    RenderSnoc(t1, Text(s), d);
    RenderSnoc(t2, Close(name), d);
    assert IndentText(d) + ("<" + name + ">") == IndentText(d) + "<" + name + ">";
    assert IndentText(d) + ("<" + name) == IndentText(d) + "<" + name;
  }


  lemma FourTokenRendering(a: string, b: string, c: string, d: int)
    ensures RenderFrom([Indent, Text(a), Text(b), Text(c)], d) == IndentText(d) + a + b + c
  {
    var t1 := [Indent];
    var t2 := t1 + [Text(a)];
    var t3 := t2 + [Text(b)];
    assert [Indent, Text(a), Text(b), Text(c)] == t3 + [Text(c)];
    RenderSingle(Indent, d);
    RenderSnoc(t1, Text(a), d);
    RenderSnoc(t2, Text(b), d);
    RenderSnoc(t3, Text(c), d);
  }

  /**
   * An individual is written as a self-closing Ind element carrying the IRI
   * exactly when its identifier is an IRI, and as an Ind element around
   * its name otherwise.
   */
  lemma IndRendering(id: Identifier, d: int)
    ensures id.UriId? ==> RenderFrom(IndTokens(id), d) == IndentText(d) + "<Ind iri=\"" + IriString(id.uri) + "\"/>"
    ensures id.NameId? ==> RenderFrom(IndTokens(id), d) == IndentText(d) + "<Ind>" + id.name + "</Ind>"
    ensures SelfClosing(RenderFrom(IndTokens(id), d)) <==> id.UriId?
  {
    match id
    case UriId(u) =>
      FourTokenRendering("<Ind iri=\"", IriString(u), "\"/>", d);
      var r := RenderFrom(IndTokens(id), d);
      assert r[|r| - 2..] == "\"/>"[1..];
    case NameId(n) =>
      InlineRendering("Ind", n, d);
      assert "<" + "Ind" + ">" == "<Ind>" && "</" + "Ind" + ">" == "</Ind>";
      var r := RenderFrom(IndTokens(id), d);
      assert r[|r| - 2..] == "</Ind>"[4..];
  }

  /** The same two forms for a predicate, with the element Rel. */
  lemma RelRendering(id: Identifier, d: int)
    ensures id.UriId? ==> RenderFrom(RelTokens(id), d) == IndentText(d) + "<Rel iri=\"" + IriString(id.uri) + "\"/>"
    ensures id.NameId? ==> RenderFrom(RelTokens(id), d) == IndentText(d) + "<Rel>" + id.name + "</Rel>"
    ensures SelfClosing(RenderFrom(RelTokens(id), d)) <==> id.UriId?
  {
    match id
    case UriId(u) =>
      FourTokenRendering("<Rel iri=\"", IriString(u), "\"/>", d);
      var r := RenderFrom(RelTokens(id), d);
      assert r[|r| - 2..] == "\"/>"[1..];
    case NameId(n) =>
      InlineRendering("Rel", n, d);
      assert "<" + "Rel" + ">" == "<Rel>" && "</" + "Rel" + ">" == "</Rel>";
      var r := RenderFrom(RelTokens(id), d);
      assert r[|r| - 2..] == "</Rel>"[4..];
  }

  /**
   * A variable is written as an individual inside a fact and as a Var
   * element outside one; the two forms differ. A constant is an individual
   * wherever it occurs.
   */
  lemma VariableRendering(id: Identifier, d: int)
    ensures RenderFrom(TermTokens(Variable(id), true), d) == RenderFrom(IndTokens(id), d)
    ensures RenderFrom(TermTokens(Variable(id), false), d) == IndentText(d) + "<Var>" + IdentifierString(id) + "</Var>"
    ensures RenderFrom(TermTokens(Variable(id), true), d) != RenderFrom(TermTokens(Variable(id), false), d)
    ensures RenderFrom(TermTokens(Constant(id), true), d) == RenderFrom(TermTokens(Constant(id), false), d)
                                                         == RenderFrom(IndTokens(id), d)
  {
    InlineRendering("Var", IdentifierString(id), d);
    assert "<" + "Var" + ">" == "<Var>" && "</" + "Var" + ">" == "</Var>";
    IndRendering(id, d);
    var k := |IndentText(d)| + 1;
    var inFact := RenderFrom(TermTokens(Variable(id), true), d);
    var outside := RenderFrom(TermTokens(Variable(id), false), d);
    assert outside[k] == 'V';
    assert inFact[k] == 'I';
  }

  lemma TextsRendering(a: string, b: string, c: string, e: string, f: string, d: int)
    ensures RenderFrom([Indent, Text(a), Text(b), Text(c), Text(e), Text(f)], d) == IndentText(d) + a + b + c + e + f
  {
    var t3 := [Indent, Text(a), Text(b)];
    var t4 := t3 + [Text(c)];
    var t5 := t4 + [Text(e)];
    assert t3 == [Indent] + [Text(a)] + [Text(b)];
    assert [Indent, Text(a), Text(b), Text(c), Text(e), Text(f)] == t5 + [Text(f)];
    RenderSingle(Indent, d);
    RenderSnoc([Indent], Text(a), d);
    RenderSnoc([Indent] + [Text(a)], Text(b), d);
    RenderSnoc(t3, Text(c), d);
    RenderSnoc(t4, Text(e), d);
    RenderSnoc(t5, Text(f), d);
  }

  /** A literal is a Data element typed with its datatype's short XML Schema name, or its full IRI for other datatypes. */
  lemma LiteralRendering(value: string, dt: Iri, inFact: bool, d: int)
    ensures RenderFrom(TermTokens(Literal(value, dt), inFact), d)
         == IndentText(d) + "<Data xsi:type=\"" + TypeName(dt) + "\">" + value + "</Data>"
    ensures dt.prefix == XsdPrefix ==> TypeName(dt) == "xsd:" + dt.localname
    ensures dt.prefix != XsdPrefix ==> TypeName(dt) == dt.prefix + dt.localname
  {
    TextsRendering("<Data xsi:type=\"", TypeName(dt), "\">", value, "</Data>", d);
  }

  // ---------------------------------------------------------------------
  // Variables quantified by rules and queries
  // ---------------------------------------------------------------------

  lemma VariableSetConcat(a: seq<Atom>, b: seq<Atom>)
    ensures VariableSet(a + b) == VariableSet(a) + VariableSet(b)
  {
    assert forall x :: x in a + b <==> x in a || x in b;
  }

  /** The existential variables of a rule: the head variables absent from the body. */
  function Existentials(r: Rule): (ex: seq<Term>)
    ensures Distinct(ex)
    ensures forall t :: t in ex <==> t in VariableSet(r.head) && t !in VariableSet(r.body)
  {
    Minus(FirstOccurrences(VariablesIn(r.head)), VariablesIn(r.body))
  }

  /** The universal variables of a rule: every rule variable that is not existential, that is, the body variables. */
  function Universals(r: Rule): (u: seq<Term>)
    ensures Distinct(u)
    ensures forall t :: t in u <==> t in VariableSet(r.body)
  {
    VariableSetConcat(r.body, r.head);
    Minus(FirstOccurrences(VariablesIn(r.body + r.head)), Existentials(r))
  }

  /** The variables a query quantifies existentially: its variables other than the answer variables. */
  function ExistVariables(q: ConjunctiveQuery): (ex: seq<Term>)
    ensures Distinct(ex)
    ensures forall t :: t in ex <==> t in VariableSet(q.atoms) && t !in q.answerVariables
  {
    Minus(FirstOccurrences(VariablesIn(q.atoms)), q.answerVariables)
  }

  // ---------------------------------------------------------------------
  // Facts, rules, queries and the document
  // ---------------------------------------------------------------------

  /** write(AtomSet): the atoms asserted as facts. */
  function FactTokens(atoms: seq<Atom>): seq<Token> {
    Element("Assert", AtomsTokens(atoms, true))
  }

  /** The head: wrapped in a conjunction when it has more than one atom. */
  function HeadTokens(head: seq<Atom>): seq<Token> {
    if |head| > 1 then Element("And", AtomsTokens(head, false)) else AtomsTokens(head, false)
  }

  /** The conclusion: the head, under an Exists listing the existential variables when there are any. */
  function ConclusionTokens(r: Rule): seq<Token> {
    var ex := Existentials(r);
    if ex != [] then Element("Exists", TermsTokens(ex, false) + HeadTokens(r.head)) else HeadTokens(r.head)
  }

  /** write(Rule): an asserted universally quantified implication from the conjunction of the body to the conclusion. */
  function RuleTokens(r: Rule): seq<Token> {
    Element("Assert",
      LabelTokens(r.labelText)
      + Element("Forall", TermsTokens(Universals(r), false) + ImplicationTokens(r.body, ConclusionTokens(r))))
  }

  /** The implication: the conjunction of the body as condition, then the conclusion. */
  function ImplicationTokens(body: seq<Atom>, conclusion: seq<Token>): seq<Token> {
    Element("Implies", Element("if", Element("And", AtomsTokens(body, false))) + Element("then", conclusion))
  }

  /** write(ConjunctiveQuery): a query over the conjunction of its atoms, its non-answer variables quantified existentially. */
  function QueryTokens(q: ConjunctiveQuery): seq<Token> {
    Element("Query",
      LabelTokens(q.labelText)
      + Element("Exists", TermsTokens(ExistVariables(q), false) + Element("And", AtomsTokens(q.atoms, false))))
  }

  /** writeComment: a comment preceded by a blank line and followed by a line break. */
  function CommentTokens(s: string): seq<Token> {
    [Text("\n\n<!-- "), Text(s), Text(" -->"), Text("\n")]
  }

  /** What can be written to a RuleML document. */
  datatype Entry =
    | CommentEntry(comment: string)
    | FactEntry(atoms: seq<Atom>)
    | RuleEntry(rule: Rule)
    | QueryEntry(query: ConjunctiveQuery)

  function EntryTokens(e: Entry): seq<Token> {
    match e
    case CommentEntry(s) => CommentTokens(s)
    case FactEntry(atoms) => FactTokens(atoms)
    case RuleEntry(r) => RuleTokens(r)
    case QueryEntry(q) => QueryTokens(q)
  }

  function EntriesTokens(es: seq<Entry>): seq<Token> {
    if es == [] then [] else EntriesTokens(es[..|es| - 1]) + EntryTokens(es[|es| - 1])
  }

  const XmlDeclaration: string := "<?xml version=\"1.0\" encoding=\"UTF-8\"?>"
  const ModelDeclaration: string := "<?xml-model href=\"http://deliberation.ruleml.org/1.01/relaxng/datalogplus_min_relaxed.rnc\"?>"
  const RootBalise: string := "RuleML xmlns=\"http://ruleml.org/spec\""
    + "\n        xmlns:xsd=\"http://www.w3.org/2001/XMLSchema\""
    + "\n        xmlns:xsi=\"http://www.w3.org/2001/XMLSchema-instance\""
  const GeneratedComment: string := "This file was generated by Graal"

  /** init, up to its comment: the two XML declarations and the opened root element. */
  function PrologTokens(): seq<Token> {
    [Text(XmlDeclaration), Text("\n"), Text(ModelDeclaration), Text("\n"), Open(RootBalise)]
  }

  /** close: the root element closed on its own line, then a final line break. */
  function CloseTokens(): seq<Token> {
    [CloseLine("RuleML"), Text("\n")]
  }

  /** A whole document: prolog, every entry written, closing. */
  function Document(es: seq<Entry>): seq<Token> {
    PrologTokens() + EntriesTokens(es) + CloseTokens()
  }

  // ---------------------------------------------------------------------
  // Properties of facts, rules, queries and documents
  // ---------------------------------------------------------------------

  lemma FactBalanced(atoms: seq<Atom>)
    ensures Balanced(FactTokens(atoms))
  {
    AtomsBalanced(atoms, true);
    BalancedElement("Assert", AtomsTokens(atoms, true));
  }

  lemma HeadBalanced(head: seq<Atom>)
    ensures Balanced(HeadTokens(head))
  {
    AtomsBalanced(head, false);
    if |head| > 1 {
      BalancedElement("And", AtomsTokens(head, false));
    }
  }

  lemma ConclusionBalanced(r: Rule)
    ensures Balanced(ConclusionTokens(r))
  {
    var ex := Existentials(r);
    if ex == [] {
      HeadBalanced(r.head);
    } else {
      assert Balanced(TermsTokens(ex, false) + HeadTokens(r.head)) by {
        HeadBalanced(r.head);
        TermsBalanced(ex, false);
        BalancedConcat(TermsTokens(ex, false), HeadTokens(r.head));
      }
      BalancedElement("Exists", TermsTokens(ex, false) + HeadTokens(r.head));
    }
  }

  /** The condition of an implication: the conjunction of the body. */
  lemma ConditionBalanced(body: seq<Atom>)
    ensures Balanced(Element("if", Element("And", AtomsTokens(body, false))))
  {
    AtomsBalanced(body, false);
    BalancedElement("And", AtomsTokens(body, false));
    BalancedElement("if", Element("And", AtomsTokens(body, false)));
  }

  lemma ImplicationBalanced(body: seq<Atom>, conclusion: seq<Token>)
    requires Balanced(conclusion)
    ensures Balanced(ImplicationTokens(body, conclusion))
  {
    var condition := Element("if", Element("And", AtomsTokens(body, false)));
    ConditionBalanced(body);
    BalancedElement("then", conclusion);
    BalancedConcat(condition, Element("then", conclusion));
    BalancedElement("Implies", condition + Element("then", conclusion));
  }

  /** The Forall element around the universal variables and a balanced implication is balanced. */
  lemma ForallBalanced(us: seq<Term>, implication: seq<Token>)
    requires Balanced(implication)
    ensures Balanced(Element("Forall", TermsTokens(us, false) + implication))
  {
    TermsBalanced(us, false);
    BalancedConcat(TermsTokens(us, false), implication);
    BalancedElement("Forall", TermsTokens(us, false) + implication);
  }

  /** An element holding a label and then a balanced body is balanced, so it restores the depth. */
  lemma LabelledBalanced(name: string, text: string, inner: seq<Token>)
    requires ' ' !in name && Balanced(inner)
    ensures Balanced(Element(name, LabelTokens(text) + inner))
    ensures Depth(Element(name, LabelTokens(text) + inner)) == 0
  {
    LabelBalanced(text);
    BalancedConcat(LabelTokens(text), inner);
    BalancedElement(name, LabelTokens(text) + inner);
    BalancedDepth(Element(name, LabelTokens(text) + inner));
  }

  /** A rule opens and closes the same elements, so the indentation is restored after it. */
  lemma RuleBalanced(r: Rule)
    ensures Balanced(RuleTokens(r))
    ensures Depth(RuleTokens(r)) == 0
  {
    var implication := ImplicationTokens(r.body, ConclusionTokens(r));
    var quantified := Element("Forall", TermsTokens(Universals(r), false) + implication);
    assert Balanced(quantified) by {
      ConclusionBalanced(r);
      ImplicationBalanced(r.body, ConclusionTokens(r));
      ForallBalanced(Universals(r), implication);
    }
    LabelledBalanced("Assert", r.labelText, quantified);
  }

  /** The Exists element around the query's variables and the conjunction of its atoms is balanced. */
  lemma ExistsAndBalanced(vs: seq<Term>, atoms: seq<Atom>)
    ensures Balanced(Element("Exists", TermsTokens(vs, false) + Element("And", AtomsTokens(atoms, false))))
  {
    AtomsBalanced(atoms, false);
    BalancedElement("And", AtomsTokens(atoms, false));
    TermsBalanced(vs, false);
    BalancedConcat(TermsTokens(vs, false), Element("And", AtomsTokens(atoms, false)));
    BalancedElement("Exists", TermsTokens(vs, false) + Element("And", AtomsTokens(atoms, false)));
  }

  /** A query opens and closes the same elements, so the indentation is restored after it. */
  lemma QueryBalanced(q: ConjunctiveQuery)
    ensures Balanced(QueryTokens(q))
    ensures Depth(QueryTokens(q)) == 0
  {
    var body := Element("Exists", TermsTokens(ExistVariables(q), false) + Element("And", AtomsTokens(q.atoms, false)));
    assert Balanced(body) by {
      ExistsAndBalanced(ExistVariables(q), q.atoms);
    }
    LabelledBalanced("Query", q.labelText, body);
  }

  lemma EntryBalanced(e: Entry)
    ensures Balanced(EntryTokens(e))
  {
    match e
    case CommentEntry(s) => PlainBalanced(CommentTokens(s));
    case FactEntry(atoms) => FactBalanced(atoms);
    case RuleEntry(r) => RuleBalanced(r);
    case QueryEntry(q) => QueryBalanced(q);
  }

  lemma {:induction false} EntriesBalanced(es: seq<Entry>)
    ensures Balanced(EntriesTokens(es))
  {
    if es != [] {
      EntriesBalanced(es[..|es| - 1]);
      EntryBalanced(es[|es| - 1]);
      BalancedConcat(EntriesTokens(es[..|es| - 1]), EntryTokens(es[|es| - 1]));
    }
  }

  lemma {:induction false} ElementNameBeforeSpace(p: string, rest: string)
    requires ' ' !in p
    ensures ElementName(p + [' '] + rest) == p
  {
    if p != [] {
      assert (p + [' '] + rest)[1..] == p[1..] + [' '] + rest;
      ElementNameBeforeSpace(p[1..], rest);
    }
  }

  /** The root element's opening tag carries namespace attributes; its element name is RuleML. */
  lemma RootName()
    ensures ElementName(RootBalise) == "RuleML"
  {
    assert RootBalise == "RuleML" + [' '] + RootBalise[7..];
    ElementNameBeforeSpace("RuleML", RootBalise[7..]);
  }

  /** The prolog leaves the root element open and nothing else. */
  lemma PrologNest()
    ensures Nest([], PrologTokens()) == Some(["RuleML"])
  {
    var texts := [Text(XmlDeclaration), Text("\n"), Text(ModelDeclaration), Text("\n")];
    assert PrologTokens() == texts + [Open(RootBalise)];
    PlainBalanced(texts);
    assert Nest([], texts) == Some([]);
    NestAppend([], texts, [Open(RootBalise)]);
    NestSingle([], Open(RootBalise));
    RootName();
    assert [] + [ElementName(RootBalise)] == ["RuleML"];
  }

  /** The closing tokens close the root element. */
  lemma CloseNest()
    ensures Nest(["RuleML"], CloseTokens()) == Some([])
  {
    assert CloseTokens() == [CloseLine("RuleML")] + [Text("\n")];
    NestSingle(["RuleML"], CloseLine("RuleML"));
    NestSingle([], Text("\n"));
    assert ["RuleML"][..0] == [];
    NestAppend(["RuleML"], [CloseLine("RuleML")], [Text("\n")]);
  }

  /**
   * Whatever is written between init and close, the document is well
   * nested: everything opened is closed in order, ending with the root.
   */
  lemma DocumentBalanced(es: seq<Entry>)
    ensures Nest([], Document(es)) == Some([])
  {
    var prolog := PrologTokens();
    var entries := EntriesTokens(es);
    PrologNest();
    CloseNest();
    EntriesBalanced(es);
    assert Nest(["RuleML"], entries) == Some(["RuleML"]);
    NestAppend([], prolog, entries);
    NestAppend([], prolog + entries, CloseTokens());
  }

  /** Between entries the writer sits one level deep, inside the root element. */
  lemma OpenDocumentDepth(es: seq<Entry>)
    ensures Depth(PrologTokens() + EntriesTokens(es)) == 1
  {
    EntriesBalanced(es);
    BalancedDepth(EntriesTokens(es));
    DepthAppend(PrologTokens(), EntriesTokens(es));
    assert PrologTokens()[1..][1..][1..][1..][1..] == [];
  }

  /** The root's closing tag written inside the root element, then the final line break. */
  lemma CloseText()
    ensures RenderToken(CloseLine("RuleML"), 1) + "\n" == "\n</RuleML>\n"
  {
    assert IndentText(0) == "\n" by {
      assert "\n" + "" == "\n";
    }
  }

  /** Closing the root after any trace that leaves one element open appends the closing tag on a new line and a line break. */
  lemma ClosingAfter(open: seq<Token>)
    requires Depth(open) == 1
    ensures RenderFrom(open + CloseTokens(), 0) == RenderFrom(open, 0) + "\n</RuleML>\n"
  {
    assert open + CloseTokens() == (open + [CloseLine("RuleML")]) + [Text("\n")];
    RenderSnoc(open, CloseLine("RuleML"), 0);
    RenderSnoc(open + [CloseLine("RuleML")], Text("\n"), 0);
    CloseText();
  }

  /** close ends the document with the root's closing tag at the start of a line and a final line break. */
  lemma DocumentEnding(es: seq<Entry>)
    ensures RenderFrom(Document(es), 0) == RenderFrom(PrologTokens() + EntriesTokens(es), 0) + "\n</RuleML>\n"
  {
    OpenDocumentDepth(es);
    ClosingAfter(PrologTokens() + EntriesTokens(es));
  }

  lemma CountAppend(a: seq<Token>, b: seq<Token>, x: Token)
    ensures multiset(a + b)[x] == multiset(a)[x] + multiset(b)[x]
  {
    assert multiset(a + b) == multiset(a) + multiset(b);
  }

  /** An element does not add to the count of tokens other than its own tags. */
  lemma ElementCountOther(name: string, inner: seq<Token>, x: Token)
    requires x != Open(name) && x != CloseLine(name)
    ensures multiset(Element(name, inner))[x] == multiset(inner)[x]
  {
    ElementCount(name, inner, x);
  }

  /** The structural wrappers never come from the atoms, the terms or the label. */
  lemma AtomsWrapperFree(atoms: seq<Atom>, inFact: bool, name: string)
    requires name !in AtomLevelNames
    ensures multiset(AtomsTokens(atoms, inFact))[Open(name)] == 0
  {
    AtomsBalanced(atoms, inFact);
    assert Open(name) !in AtomsTokens(atoms, inFact);
  }

  lemma TermsWrapperFree(ts: seq<Term>, inFact: bool, name: string)
    requires name !in AtomLevelNames
    ensures multiset(TermsTokens(ts, inFact))[Open(name)] == 0
  {
    TermsBalanced(ts, inFact);
    assert Open(name) !in TermsTokens(ts, inFact);
  }

  lemma LabelWrapperFree(text: string, name: string)
    ensures multiset(LabelTokens(text))[Open(name)] == 0
  {
    assert Open(name) !in LabelTokens(text);
  }

  /** The implication holds one And element (around the body) plus the conclusion's own. */
  lemma ImplicationCount(body: seq<Atom>, conclusion: seq<Token>, name: string)
    requires name !in AtomLevelNames
    requires name != "if" && name != "then" && name != "Implies"
    ensures multiset(ImplicationTokens(body, conclusion))[Open(name)]
         == (if name == "And" then 1 else 0) + multiset(conclusion)[Open(name)]
  {
    var x := Open(name);
    var atoms := AtomsTokens(body, false);
    AtomsWrapperFree(body, false, name);
    ElementCount("And", atoms, x);
    ElementCountOther("if", Element("And", atoms), x);
    ElementCountOther("then", conclusion, x);
    CountAppend(Element("if", Element("And", atoms)), Element("then", conclusion), x);
    ElementCountOther("Implies", Element("if", Element("And", atoms)) + Element("then", conclusion), x);
  }


  /** A rule holds the implication's And and Exists elements and no others. */
  lemma RuleCount(r: Rule, name: string)
    requires name !in AtomLevelNames
    requires name != "Forall" && name != "Assert"
    ensures multiset(RuleTokens(r))[Open(name)] == multiset(ImplicationTokens(r.body, ConclusionTokens(r)))[Open(name)]
  {
    var x := Open(name);
    var implication := ImplicationTokens(r.body, ConclusionTokens(r));
    var univ := TermsTokens(Universals(r), false);
    TermsWrapperFree(Universals(r), false, name);
    LabelWrapperFree(r.labelText, name);
    CountAppend(univ, implication, x);
    ElementCountOther("Forall", univ + implication, x);
    CountAppend(LabelTokens(r.labelText), Element("Forall", univ + implication), x);
    ElementCountOther("Assert", LabelTokens(r.labelText) + Element("Forall", univ + implication), x);
  }

  lemma ConclusionCountOf(r: Rule, name: string)
    requires name !in AtomLevelNames
    ensures multiset(ConclusionTokens(r))[Open(name)]
         == (if name == "Exists" && Existentials(r) != [] then 1 else 0) + (if name == "And" && |r.head| > 1 then 1 else 0)
  {
    var ex := Existentials(r);
    var atoms := AtomsTokens(r.head, false);
    var head := HeadTokens(r.head);
    var x := Open(name);
    AtomsWrapperFree(r.head, false, name);
    TermsWrapperFree(ex, false, name);
    if |r.head| > 1 {
      ElementCount("And", atoms, x);
    }
    if ex != [] {
      CountAppend(TermsTokens(ex, false), head, x);
      ElementCount("Exists", TermsTokens(ex, false) + head, x);
    }
  }

  /** The conclusion holds an Exists element iff there are existential variables, and an And element iff the head has several atoms. */
  lemma ConclusionCount(r: Rule)
    ensures multiset(ConclusionTokens(r))[Open("Exists")] == if Existentials(r) == [] then 0 else 1
    ensures multiset(ConclusionTokens(r))[Open("And")] == if |r.head| > 1 then 1 else 0
  {
    assert "And" !in AtomLevelNames && "Exists" !in AtomLevelNames;
    ConclusionCountOf(r, "Exists");
    ConclusionCountOf(r, "And");
  }

  /** An Exists element appears in a written rule exactly when the rule has existential variables, and then once. */
  lemma RuleExistsCount(r: Rule)
    ensures multiset(RuleTokens(r))[Open("Exists")] == if Existentials(r) == [] then 0 else 1
  {
    assert "And" !in AtomLevelNames && "Exists" !in AtomLevelNames;
    RuleCount(r, "Exists");
    ImplicationCount(r.body, ConclusionTokens(r), "Exists");
    ConclusionCount(r);
  }

  /** A written rule has one And element around the body, and a second around the head exactly when the head has several atoms. */
  lemma RuleAndCount(r: Rule)
    ensures multiset(RuleTokens(r))[Open("And")] == if |r.head| > 1 then 2 else 1
  {
    assert "And" !in AtomLevelNames && "Exists" !in AtomLevelNames;
    RuleCount(r, "And");
    ImplicationCount(r.body, ConclusionTokens(r), "And");
    ConclusionCount(r);
  }

  lemma QueryCountOf(q: ConjunctiveQuery, name: string)
    requires name !in AtomLevelNames && name != "Query"
    ensures multiset(QueryTokens(q))[Open(name)] == (if name == "Exists" then 1 else 0) + (if name == "And" then 1 else 0)
  {
    var atoms := AtomsTokens(q.atoms, false);
    var vars := TermsTokens(ExistVariables(q), false);
    var labelToks := LabelTokens(q.labelText);
    var x := Open(name);
    AtomsWrapperFree(q.atoms, false, name);
    TermsWrapperFree(ExistVariables(q), false, name);
    LabelWrapperFree(q.labelText, name);
    ElementCount("And", atoms, x);
    CountAppend(vars, Element("And", atoms), x);
    ElementCount("Exists", vars + Element("And", atoms), x);
    CountAppend(labelToks, Element("Exists", vars + Element("And", atoms)), x);
    ElementCountOther("Query", labelToks + Element("Exists", vars + Element("And", atoms)), x);
  }

  /** A written query always has exactly one Exists and one And element. */
  lemma QueryWrapperCounts(q: ConjunctiveQuery)
    ensures multiset(QueryTokens(q))[Open("Exists")] == 1
    ensures multiset(QueryTokens(q))[Open("And")] == 1
  {
    assert "And" !in AtomLevelNames && "Exists" !in AtomLevelNames;
    QueryCountOf(q, "Exists");
    QueryCountOf(q, "And");
  }

  /**
   * Inside an element holding a label and then a body that starts with an
   * opening tag, a line break comes first exactly when the label is not empty.
   */
  lemma LabelFirst(name: string, text: string, inner: seq<Token>, first: string)
    requires |inner| > 0 && inner[0] == Open(first)
    ensures Element(name, LabelTokens(text) + inner)[1] == Indent <==> text != []
    ensures text != [] ==> Element(name, LabelTokens(text) + inner)[1..5] == [Indent, Text("<!-- "), Text(text), Text(" -->")]
  {
    var e := Element(name, LabelTokens(text) + inner);
    assert e == [Open(name)] + LabelTokens(text) + inner + [CloseLine(name)];
    if text == [] {
      assert e[1] == inner[0];
    } else {
      assert e[1..5] == LabelTokens(text);
    }
  }

  /** A rule's label is written, as the first thing inside the Assert element, exactly when it is not empty. */
  lemma RuleLabelWrittenIffNonEmpty(r: Rule)
    ensures RuleTokens(r)[1] == Indent <==> r.labelText != []
    ensures r.labelText != [] ==> RuleTokens(r)[1..5] == [Indent, Text("<!-- "), Text(r.labelText), Text(" -->")]
  {
    var inner := TermsTokens(Universals(r), false) + ImplicationTokens(r.body, ConclusionTokens(r));
    LabelFirst("Assert", r.labelText, Element("Forall", inner), "Forall");
  }

  /** A query's label is written, as the first thing inside the Query element, exactly when it is not empty. */
  lemma QueryLabelWrittenIffNonEmpty(q: ConjunctiveQuery)
    ensures QueryTokens(q)[1] == Indent <==> q.labelText != []
    ensures q.labelText != [] ==> QueryTokens(q)[1..5] == [Indent, Text("<!-- "), Text(q.labelText), Text(" -->")]
  {
    var inner := TermsTokens(ExistVariables(q), false) + Element("And", AtomsTokens(q.atoms, false));
    LabelFirst("Query", q.labelText, Element("Exists", inner), "Exists");
  }
}
