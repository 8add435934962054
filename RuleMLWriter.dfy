/**
 * The RuleML writer as the object it is: an output text that only grows,
 * an indentation counter and the flag telling whether a fact is being
 * written. Every method appends to the output what the Java method
 * writes, taking the base writer's write to append its argument verbatim
 * and writeln to append its argument and then "\n".
 *
 * Alongside the real state, the writer keeps a ghost trace of the tokens
 * it has emitted and a ghost list of the entries it has written. The
 * well-formedness invariant ties the output to the rendering of the trace
 * and the counter to the trace's depth. Each public write method is proved
 * to emit exactly the tokens that RuleMLText assigns to its entry, so every
 * property proved there (balance, restored indentation, conditional
 * wrappers, the forms of terms) holds for the text the writer produces.
 */
module RuleMLWriting {
  import opened Terms
  import opened RuleMLText

  class RuleMLWriter {
    /** Everything written so far: the output writer's contents. */
    var out: string
    var currentIndentSize: int
    var inFact: bool
    /** The writer events that produced out. */
    ghost var tokens: seq<Token>
    /** The comments, facts, rules and queries written since the document was opened. */
    ghost var written: seq<Entry>
    /** outs[k] and depths[k]: the output and the depth after the first k tokens. */
    ghost var outs: seq<string>
    ghost var depths: seq<int>

    /** The output is the rendering of the trace, and the counter is the trace's depth. */
    ghost predicate Wf()
      reads this
    {
      StepTable(tokens, outs, depths) && out == outs[|tokens|] && currentIndentSize == depths[|tokens|]
    }

    /** Between two public calls: well formed, outside any fact, and the document so far is the prolog and the entries written. */
    ghost predicate Valid()
      reads this
    {
      Wf() && !inFact && tokens == PrologTokens() + EntriesTokens(written)
    }

    /** new RuleMLWriter(out): a fresh output, then init. */
    constructor ()
      ensures Valid()
      ensures written == [CommentEntry(GeneratedComment)]
    {
      out := "";
      currentIndentSize := 0;
      inFact := false;
      tokens := [];
      written := [];
      outs := [""];
      depths := [0];
      new;
      Init();
    }

    /** init: the two XML declarations, the opened root element and the generation comment. */
    method Init()
      modifies this
      requires out == "" && tokens == [] && written == [] && currentIndentSize == 0 && !inFact
      requires outs == [""] && depths == [0]
      ensures Valid()
      ensures written == [CommentEntry(GeneratedComment)]
    {
      Writeln(XmlDeclaration);
      Writeln(ModelDeclaration);
      OpenBalise(RootBalise);
      PrologEmitted(XmlDeclaration, ModelDeclaration, RootBalise);
      WriteComment(GeneratedComment);
      assert [CommentEntry(GeneratedComment)] == [] + [CommentEntry(GeneratedComment)];
    }

    // -------------------------------------------------------------------
    // The output writer and the indentation counter
    // -------------------------------------------------------------------

    /** The output writer's write: the text is appended. */
    method Append(s: string)
      modifies this`out
      ensures out == old(out) + s
    {
      out := out + s;
    }

    /** Records the token whose text was just written, keeping the writer well formed. */
    ghost method Note(t: Token)
      modifies this`tokens, this`outs, this`depths
      requires StepTable(tokens, outs, depths)
      requires out == outs[|tokens|] + RenderToken(t, depths[|tokens|])
      requires currentIndentSize == depths[|tokens|] + Delta(t)
      ensures tokens == old(tokens) + [t]
      ensures Wf()
    {
      StepTableSnoc(tokens, outs, depths, t, out, currentIndentSize);
      tokens := tokens + [t];
      outs := outs + [out];
      depths := depths + [currentIndentSize];
    }

    /** write(s) as the RuleML methods use it: the text appears in the output as it is. */
    method Write(s: string)
      modifies this`out, this`tokens, this`outs, this`depths
      requires Wf()
      ensures Wf()
      ensures tokens == old(tokens) + [Text(s)]
      ensures out == old(out) + s
    {
      Append(s);
      Note(Text(s));
    }

    /** writeln: the text, then a line break. */
    method Writeln(s: string)
      modifies this`out, this`tokens, this`outs, this`depths
      requires Wf()
      ensures Wf()
      ensures tokens == old(tokens) + [Text(s), Text("\n")]
      ensures out == old(out) + s + "\n"
    {
      Write(s);
      Write("\n");
      Two(old(tokens), Text(s), Text("\n"));
    }

    method IncrIndent()
      modifies this`currentIndentSize
      ensures currentIndentSize == old(currentIndentSize) + 1
    {
      currentIndentSize := currentIndentSize + 1;
    }

    method DecrIndent()
      modifies this`currentIndentSize
      ensures currentIndentSize == old(currentIndentSize) - 1
    {
      currentIndentSize := currentIndentSize - 1;
    }

    /** writeIndent: a line break, then the indent style once per level. */
    method WriteIndent()
      modifies this`out
      ensures out == old(out) + IndentText(currentIndentSize)
    {
      Append("\n");
      var i := 0;
      while i < currentIndentSize
        invariant currentIndentSize <= 0 ==> i == 0
        invariant currentIndentSize > 0 ==> 0 <= i <= currentIndentSize
        invariant out == old(out) + "\n" + Spaces(i)
      {
        Append(IndentStyle);
        SpacesSnoc(i);
        i := i + 1;
      }
    }

    /** writeIndent where it stands on its own: a new line at the current depth. */
    method WriteIndentToken()
      modifies this`out, this`tokens, this`outs, this`depths
      requires Wf()
      ensures Wf()
      ensures tokens == old(tokens) + [Indent]
      ensures out == old(out) + IndentText(currentIndentSize)
    {
      WriteIndent();
      Note(Indent);
    }

    /** openBalise: the tag on a new line at the current depth, then one level deeper. */
    method OpenBalise(balise: string)
      modifies this`out, this`tokens, this`outs, this`depths, this`currentIndentSize
      requires Wf()
      ensures Wf()
      ensures tokens == old(tokens) + [Open(balise)]
      ensures currentIndentSize == old(currentIndentSize) + 1
      ensures out == old(out) + IndentText(old(currentIndentSize)) + "<" + balise + ">"
    {
      WriteIndent();
      Append("<");
      Append(balise);
      Append(">");
      IncrIndent();
      Note(Open(balise));
    }

    /** closeBalise: one level up, the closing tag on the same line. */
    method CloseBalise(name: string)
      modifies this`out, this`tokens, this`outs, this`depths, this`currentIndentSize
      requires Wf()
      ensures Wf()
      ensures tokens == old(tokens) + [Token.Close(name)]
      ensures currentIndentSize == old(currentIndentSize) - 1
      ensures out == old(out) + "</" + name + ">"
    {
      DecrIndent();
      Append("</");
      Append(name);
      Append(">");
      Note(Token.Close(name));
    }

    /** closeBaliseWithReturnLine: one level up, the closing tag on a new line at that depth. */
    method CloseBaliseWithReturnLine(name: string)
      modifies this`out, this`tokens, this`outs, this`depths, this`currentIndentSize
      requires Wf()
      ensures Wf()
      ensures tokens == old(tokens) + [CloseLine(name)]
      ensures currentIndentSize == old(currentIndentSize) - 1
      ensures out == old(out) + IndentText(old(currentIndentSize) - 1) + "</" + name + ">"
    {
      DecrIndent();
      WriteIndent();
      Append("</");
      Append(name);
      Append(">");
      Note(CloseLine(name));
    }

    // -------------------------------------------------------------------
    // Terms, predicates, atoms and labels
    // -------------------------------------------------------------------

    /** writeInd. */
    method WriteInd(id: Identifier)
      modifies this`out, this`tokens, this`outs, this`depths, this`currentIndentSize
      requires Wf()
      ensures Wf()
      ensures tokens == old(tokens) + IndTokens(id)
      ensures currentIndentSize == old(currentIndentSize)
    {
      match id
      case UriId(u) =>
        WriteIndentToken();
        Write("<Ind iri=\"");
        Write(IriString(u));
        Write("\"/>");
        Four(old(tokens), Indent, Text("<Ind iri=\""), Text(IriString(u)), Text("\"/>"));
      case NameId(n) =>
        OpenBalise("Ind");
        Write(n);
        CloseBalise("Ind");
        Inline(old(tokens), "Ind", n);
    }

    /** writePredicate. */
    method WritePredicate(p: Predicate)
      modifies this`out, this`tokens, this`outs, this`depths, this`currentIndentSize
      requires Wf()
      ensures Wf()
      ensures tokens == old(tokens) + RelTokens(p.id)
      ensures currentIndentSize == old(currentIndentSize)
    {
      match p.id
      case UriId(u) =>
        WriteIndentToken();
        Write("<Rel iri=\"");
        Write(IriString(u));
        Write("\"/>");
        Four(old(tokens), Indent, Text("<Rel iri=\""), Text(IriString(u)), Text("\"/>"));
      case NameId(n) =>
        OpenBalise("Rel");
        Write(n);
        CloseBalise("Rel");
        Inline(old(tokens), "Rel", n);
    }

    /** writeTerm: how a term is written depends on its kind and, for a variable, on whether a fact is being written. */
    method WriteTerm(t: Term)
      modifies this`out, this`tokens, this`outs, this`depths, this`currentIndentSize
      requires Wf()
      ensures Wf()
      ensures tokens == old(tokens) + TermTokens(t, inFact)
      ensures currentIndentSize == old(currentIndentSize)
    {
      match t
      case Variable(id) =>
        if inFact {
          WriteInd(id);
        } else {
          OpenBalise("Var");
          Write(IdentifierString(id));
          CloseBalise("Var");
          Inline(old(tokens), "Var", IdentifierString(id));
        }
      case Literal(v, dt) =>
        WriteIndentToken();
        Write("<Data xsi:type=\"");
        if dt.prefix == XsdPrefix {
          Write("xsd:" + dt.localname);
        } else {
          Write(IriString(dt));
        }
        Write("\">");
        Write(v);
        Write("</Data>");
        Six(old(tokens), Indent, Text("<Data xsi:type=\""), Text(TypeName(dt)), Text("\">"), Text(v), Text("</Data>"));
      case Constant(id) =>
        WriteInd(id);
    }

    /** The terms of a list written one after the other, as the loops over terms in the write methods do. */
    method WriteTerms(ts: seq<Term>)
      modifies this`out, this`tokens, this`outs, this`depths, this`currentIndentSize
      requires Wf()
      ensures Wf()
      ensures tokens == old(tokens) + TermsTokens(ts, inFact)
      ensures currentIndentSize == old(currentIndentSize)
    {
      for i := 0 to |ts|
        invariant Wf()
        invariant tokens == old(tokens) + TermsTokens(ts[..i], inFact)
        invariant currentIndentSize == old(currentIndentSize)
      {
        WriteTerm(ts[i]);
        TermsSnoc(old(tokens), ts, i, inFact);
      }
      assert ts[..|ts|] == ts;
    }

    /** writeStandardAtom. */
    method WriteStandardAtom(a: Atom)
      modifies this`out, this`tokens, this`outs, this`depths, this`currentIndentSize
      requires Wf()
      ensures Wf()
      ensures tokens == old(tokens) + StandardAtomTokens(a, inFact)
      ensures currentIndentSize == old(currentIndentSize)
    {
      OpenBalise("Atom");
      WritePredicate(a.pred);
      WriteTerms(a.terms);
      CloseBaliseWithReturnLine("Atom");
      Wrapped2(old(tokens), "Atom", RelTokens(a.pred.id), TermsTokens(a.terms, inFact));
    }

    /** writeEquality. */
    method WriteEquality(t1: Term, t2: Term)
      modifies this`out, this`tokens, this`outs, this`depths, this`currentIndentSize
      requires Wf()
      ensures Wf()
      ensures tokens == old(tokens) + EqualityTokens(t1, t2, inFact)
      ensures currentIndentSize == old(currentIndentSize)
    {
      OpenBalise("Equal");
      WriteTerm(t1);
      WriteTerm(t2);
      CloseBaliseWithReturnLine("Equal");
      Wrapped2(old(tokens), "Equal", TermTokens(t1, inFact), TermTokens(t2, inFact));
    }

    /** writeBottom. */
    method WriteBottom()
      modifies this`out, this`tokens, this`outs, this`depths
      requires Wf()
      ensures Wf()
      ensures tokens == old(tokens) + BottomTokens()
    {
      WriteIndentToken();
      Write("<Or/>");
      Two(old(tokens), Indent, Text("<Or/>"));
    }

    /** writeAtom: dispatch on the kind of atom. */
    method WriteAtom(a: Atom)
      modifies this`out, this`tokens, this`outs, this`depths, this`currentIndentSize
      requires Wf()
      ensures Wf()
      ensures tokens == old(tokens) + AtomTokens(a, inFact)
      ensures currentIndentSize == old(currentIndentSize)
    {
      if a.pred == EqualityPredicate && |a.terms| >= 2 {
        WriteEquality(a.terms[0], a.terms[1]);
      } else if a.pred == BottomPredicate {
        WriteBottom();
      } else {
        WriteStandardAtom(a);
      }
    }

    /** writeAtomSet: every atom, in iteration order. */
    method WriteAtomSet(atoms: seq<Atom>)
      modifies this`out, this`tokens, this`outs, this`depths, this`currentIndentSize
      requires Wf()
      ensures Wf()
      ensures tokens == old(tokens) + AtomsTokens(atoms, inFact)
      ensures currentIndentSize == old(currentIndentSize)
    {
      var i := 0;
      while i < |atoms|
        invariant 0 <= i <= |atoms|
        invariant Wf()
        invariant tokens == old(tokens) + AtomsTokens(atoms[..i], inFact)
        invariant currentIndentSize == old(currentIndentSize)
      {
        WriteAtom(atoms[i]);
        AtomsSnoc(old(tokens), atoms, i, inFact);
        i := i + 1;
      }
      assert atoms[..|atoms|] == atoms;
    }

    /** writeLabel: a comment on its own line, and nothing for an empty label. */
    method WriteLabel(text: string)
      modifies this`out, this`tokens, this`outs, this`depths
      requires Wf()
      ensures Wf()
      ensures tokens == old(tokens) + LabelTokens(text)
    {
      if text != [] {
        WriteIndentToken();
        Write("<!-- ");
        Write(text);
        Write(" -->");
        Four(old(tokens), Indent, Text("<!-- "), Text(text), Text(" -->"));
      }
    }

    // -------------------------------------------------------------------
    // The public write methods
    // -------------------------------------------------------------------

    /** Keeps Valid once the tokens of one more entry have been emitted at the document's depth. */
    ghost method Record(e: Entry, before: seq<Token>)
      modifies this`written
      requires Wf() && !inFact
      requires before == PrologTokens() + EntriesTokens(written)
      requires tokens == before + EntryTokens(e)
      ensures Valid()
      ensures written == old(written) + [e]
    {
      EntriesSnoc(written, e);
      AppendAssoc(PrologTokens(), EntriesTokens(written), EntryTokens(e));
      written := written + [e];
    }

    /** writeComment. */
    method WriteComment(s: string)
      modifies this
      requires Valid()
      ensures Valid()
      ensures written == old(written) + [CommentEntry(s)]
      ensures out == old(out) + "\n\n<!-- " + s + " -->" + "\n"
    {
      Write("\n\n<!-- ");
      Write(s);
      Writeln(" -->");
      CommentEmitted(old(tokens), s);
      Record(CommentEntry(s), old(tokens));
    }

    /** write(Atom): one atom asserted as a fact, its terms written with inFact set. */
    method WriteFact(a: Atom)
      modifies this
      requires Valid()
      ensures Valid()
      ensures written == old(written) + [FactEntry([a])]
    {
      OpenBalise("Assert");
      inFact := true;
      WriteAtom(a);
      inFact := false;
      CloseBaliseWithReturnLine("Assert");
      Wrapped(old(tokens), "Assert", AtomTokens(a, true));
      assert AtomsTokens([a], true) == AtomTokens(a, true) by {
        assert [a][..0] == [];
      }
      Record(FactEntry([a]), old(tokens));
    }

    /** write(AtomSet): the atoms, in iteration order, asserted as one fact block. */
    method WriteFacts(atoms: seq<Atom>)
      modifies this
      requires Valid()
      ensures Valid()
      ensures written == old(written) + [FactEntry(atoms)]
    {
      OpenBalise("Assert");
      inFact := true;
      WriteAtomSet(atoms);
      inFact := false;
      CloseBaliseWithReturnLine("Assert");
      Wrapped(old(tokens), "Assert", AtomsTokens(atoms, true));
      Record(FactEntry(atoms), old(tokens));
    }

    /** The head of write(Rule): its atoms, wrapped in And when there are several. */
    method WriteHead(head: seq<Atom>)
      modifies this`out, this`tokens, this`outs, this`depths, this`currentIndentSize
      requires Wf() && !inFact
      ensures Wf()
      ensures tokens == old(tokens) + HeadTokens(head)
      ensures currentIndentSize == old(currentIndentSize)
    {
      var isAtomicHead := |head| <= 1;
      if !isAtomicHead {
        OpenBalise("And");
      }
      WriteAtomSet(head);
      if !isAtomicHead {
        CloseBaliseWithReturnLine("And");
        Wrapped(old(tokens), "And", AtomsTokens(head, false));
      }
    }

    /** The then part of write(Rule): the head, under Exists when the rule has existential variables. */
    method WriteConclusion(r: Rule)
      modifies this`out, this`tokens, this`outs, this`depths, this`currentIndentSize
      requires Wf() && !inFact
      ensures Wf()
      ensures tokens == old(tokens) + ConclusionTokens(r)
      ensures currentIndentSize == old(currentIndentSize)
    {
      var existVar := Existentials(r);
      if existVar != [] {
        OpenBalise("Exists");
        WriteTerms(existVar);
      }
      WriteHead(r.head);
      if existVar != [] {
        CloseBaliseWithReturnLine("Exists");
        Wrapped2(old(tokens), "Exists", TermsTokens(existVar, false), HeadTokens(r.head));
      } else {
        assert tokens == old(tokens) + HeadTokens(r.head);
      }
    }

    /** The Implies part of write(Rule): the conjunction of the body under if, the conclusion under then. */
    method WriteImplication(r: Rule)
      modifies this`out, this`tokens, this`outs, this`depths, this`currentIndentSize
      requires Wf() && !inFact
      ensures Wf()
      ensures tokens == old(tokens) + ImplicationTokens(r.body, ConclusionTokens(r))
      ensures currentIndentSize == old(currentIndentSize)
    {
      ghost var body := AtomsTokens(r.body, false);
      OpenBalise("Implies");
      ghost var beforeIf := tokens;
      OpenBalise("if");
      ghost var beforeAnd := tokens;
      OpenBalise("And");
      WriteAtomSet(r.body);
      CloseBaliseWithReturnLine("And");
      Wrapped(beforeAnd, "And", body);
      CloseBaliseWithReturnLine("if");
      Wrapped(beforeIf, "if", Element("And", body));
      ghost var beforeThen := tokens;
      OpenBalise("then");
      WriteConclusion(r);
      CloseBaliseWithReturnLine("then");
      Wrapped(beforeThen, "then", ConclusionTokens(r));
      CloseBaliseWithReturnLine("Implies");
      Wrapped2(old(tokens), "Implies", Element("if", Element("And", body)), Element("then", ConclusionTokens(r)));
    }

    /** The Forall part of write(Rule): the universal variables, then the implication. */
    method WriteQuantifiedImplication(r: Rule)
      modifies this`out, this`tokens, this`outs, this`depths, this`currentIndentSize
      requires Wf() && !inFact
      ensures Wf()
      ensures tokens == old(tokens) + Element("Forall", TermsTokens(Universals(r), false) + ImplicationTokens(r.body, ConclusionTokens(r)))
      ensures currentIndentSize == old(currentIndentSize)
    {
      var universalVar := Universals(r);
      OpenBalise("Forall");
      WriteTerms(universalVar);
      WriteImplication(r);
      CloseBaliseWithReturnLine("Forall");
      Wrapped2(old(tokens), "Forall", TermsTokens(universalVar, false), ImplicationTokens(r.body, ConclusionTokens(r)));
    }

    /**
     * write(Rule): the universal variables under Forall, the body's
     * conjunction under if, and under then the head, wrapped in And when it
     * has several atoms and in Exists when there are existential variables.
     */
    method WriteRule(r: Rule)
      modifies this
      requires Valid()
      ensures Valid()
      ensures written == old(written) + [RuleEntry(r)]
    {
      EmitRule(r);
      Record(RuleEntry(r), old(tokens));
    }

    /** The Assert element of write(Rule): the label, then the quantified implication. */
    method EmitRule(r: Rule)
      modifies this`out, this`tokens, this`outs, this`depths, this`currentIndentSize
      requires Wf() && !inFact
      ensures Wf()
      ensures tokens == old(tokens) + EntryTokens(RuleEntry(r))
      ensures currentIndentSize == old(currentIndentSize)
    {
      OpenBalise("Assert");
      WriteLabelledRule(r);
      CloseBaliseWithReturnLine("Assert");
      Wrapped(old(tokens), "Assert",
        LabelTokens(r.labelText) + Element("Forall", TermsTokens(Universals(r), false) + ImplicationTokens(r.body, ConclusionTokens(r))));
    }

    /** The content of the rule's Assert element: the label, then the quantified implication. */
    method WriteLabelledRule(r: Rule)
      modifies this`out, this`tokens, this`outs, this`depths, this`currentIndentSize
      requires Wf() && !inFact
      ensures Wf()
      ensures tokens == old(tokens) + (LabelTokens(r.labelText)
        + Element("Forall", TermsTokens(Universals(r), false) + ImplicationTokens(r.body, ConclusionTokens(r))))
      ensures currentIndentSize == old(currentIndentSize)
    {
      WriteLabel(r.labelText);
      WriteQuantifiedImplication(r);
      AppendAssoc(old(tokens), LabelTokens(r.labelText),
        Element("Forall", TermsTokens(Universals(r), false) + ImplicationTokens(r.body, ConclusionTokens(r))));
    }

    /** The label of write(ConjunctiveQuery), written only when it is not empty. */
    method WriteQueryLabel(text: string)
      modifies this`out, this`tokens, this`outs, this`depths
      requires Wf()
      ensures Wf()
      ensures tokens == old(tokens) + LabelTokens(text)
    {
      if text != [] {
        WriteLabel(text);
      } else {
        assert tokens == tokens + LabelTokens([]);
      }
    }

    /** The Exists part of write(ConjunctiveQuery): the non-answer variables, then the conjunction of the atoms. */
    method WriteQueryBody(q: ConjunctiveQuery)
      modifies this`out, this`tokens, this`outs, this`depths, this`currentIndentSize
      requires Wf() && !inFact
      ensures Wf()
      ensures tokens == old(tokens) + Element("Exists", TermsTokens(ExistVariables(q), false) + Element("And", AtomsTokens(q.atoms, false)))
      ensures currentIndentSize == old(currentIndentSize)
    {
      var existVar := ExistVariables(q);
      ghost var atoms := AtomsTokens(q.atoms, false);
      OpenBalise("Exists");
      WriteTerms(existVar);
      ghost var beforeAnd := tokens;
      OpenBalise("And");
      WriteAtomSet(q.atoms);
      CloseBaliseWithReturnLine("And");
      Wrapped(beforeAnd, "And", atoms);
      CloseBaliseWithReturnLine("Exists");
      Wrapped2(old(tokens), "Exists", TermsTokens(existVar, false), Element("And", atoms));
    }

    /** write(ConjunctiveQuery): the label when there is one, then the non-answer variables under Exists around the conjunction of the atoms. */
    method WriteQuery(q: ConjunctiveQuery)
      modifies this
      requires Valid()
      ensures Valid()
      ensures written == old(written) + [QueryEntry(q)]
    {
      EmitQuery(q);
      Record(QueryEntry(q), old(tokens));
    }

    /** The Query element of write(ConjunctiveQuery). */
    method EmitQuery(q: ConjunctiveQuery)
      modifies this`out, this`tokens, this`outs, this`depths, this`currentIndentSize
      requires Wf() && !inFact
      ensures Wf()
      ensures tokens == old(tokens) + EntryTokens(QueryEntry(q))
      ensures currentIndentSize == old(currentIndentSize)
    {
      OpenBalise("Query");
      WriteQueryLabel(q.labelText);
      WriteQueryBody(q);
      CloseBaliseWithReturnLine("Query");
      Wrapped2(old(tokens), "Query", LabelTokens(q.labelText),
        Element("Exists", TermsTokens(ExistVariables(q), false) + Element("And", AtomsTokens(q.atoms, false))));
    }

    /** close: the root element closed on its own line and a final line break; the document is then complete and well nested. */
    method Close()
      modifies this
      requires Valid()
      ensures tokens == Document(old(written))
      ensures Nest([], tokens) == Some([])
      ensures out == old(out) + IndentText(0) + "</" + "RuleML" + ">" + "\n"
      ensures currentIndentSize == 0
    {
      ValidRenders(this);
      DocumentBalanced(written);
      CloseBaliseWithReturnLine("RuleML");
      Write("\n");
      Two(old(tokens), CloseLine("RuleML"), Text("\n"));
    }
  }

  /** outs and depths list the output and the depth after each prefix of ts, starting from nothing at depth zero. */
  ghost predicate StepTable(ts: seq<Token>, outs: seq<string>, depths: seq<int>) {
    |outs| == |ts| + 1 && |depths| == |ts| + 1 && outs[0] == "" && depths[0] == 0
    && forall k :: 0 <= k < |ts| ==> Step(ts, outs, depths, k)
  }

  /** Token k takes the output and the depth from entry k of the table to entry k + 1. */
  ghost predicate Step(ts: seq<Token>, outs: seq<string>, depths: seq<int>, k: nat)
    requires k < |ts| && |outs| == |ts| + 1 && |depths| == |ts| + 1
  {
    outs[k + 1] == outs[k] + RenderToken(ts[k], depths[k]) && depths[k + 1] == depths[k] + Delta(ts[k])
  }

  lemma StepTableSnoc(ts: seq<Token>, outs: seq<string>, depths: seq<int>, t: Token, o: string, d: int)
    requires StepTable(ts, outs, depths)
    requires o == outs[|ts|] + RenderToken(t, depths[|ts|]) && d == depths[|ts|] + Delta(t)
    ensures StepTable(ts + [t], outs + [o], depths + [d])
  {
    var ts', outs', depths' := ts + [t], outs + [o], depths + [d];
    forall k | 0 <= k < |ts'|
      ensures Step(ts', outs', depths', k)
    {
      if k < |ts| {
        assert Step(ts, outs, depths, k);
        assert ts'[k] == ts[k];
      }
    }
  }

  /** The table's entries are the rendering and the depth of each prefix. */
  lemma {:induction false} StepTableRenders(ts: seq<Token>, outs: seq<string>, depths: seq<int>, n: nat)
    requires StepTable(ts, outs, depths) && n <= |ts|
    ensures outs[n] == RenderFrom(ts[..n], 0) && depths[n] == Depth(ts[..n])
  {
    if n > 0 {
      StepTableRenders(ts, outs, depths, n - 1);
      assert Step(ts, outs, depths, n - 1);
      PrefixStep(ts, n, outs[n - 1], depths[n - 1]);
    }
  }

  /** The prefix of length n is the prefix of length n - 1 and one more token. */
  lemma PrefixStep(ts: seq<Token>, n: nat, o: string, d: int)
    requires 0 < n <= |ts|
    requires o == RenderFrom(ts[..n - 1], 0) && d == Depth(ts[..n - 1])
    ensures RenderFrom(ts[..n], 0) == o + RenderToken(ts[n - 1], d)
    ensures Depth(ts[..n]) == d + Delta(ts[n - 1])
  {
    assert ts[..n] == ts[..n - 1] + [ts[n - 1]];
    RenderSnoc(ts[..n - 1], ts[n - 1], 0);
  }





  /** Emitting an opening tag, a text and the inline closing tag emits the inline element. */
  lemma Inline(before: seq<Token>, name: string, s: string)
    ensures before + [Open(name)] + [Text(s)] + [Token.Close(name)] == before + InlineElement(name, s)
  {
  }

  /** Emitting an opening tag, a body and the closing tag on its own line emits the element. */
  lemma Wrapped(before: seq<Token>, name: string, inner: seq<Token>)
    ensures before + [Open(name)] + inner + [CloseLine(name)] == before + Element(name, inner)
  {
  }

  lemma Wrapped2(before: seq<Token>, name: string, a: seq<Token>, b: seq<Token>)
    ensures before + [Open(name)] + a + b + [CloseLine(name)] == before + Element(name, a + b)
  {
  }

  lemma CommentEmitted(before: seq<Token>, s: string)
    ensures before + [Text("\n\n<!-- ")] + [Text(s)] + [Text(" -->"), Text("\n")] == before + CommentTokens(s)
  {
  }

  lemma PrologEmitted(x: string, m: string, r: string)
    ensures [] + [Text(x), Text("\n")] + [Text(m), Text("\n")] + [Open(r)]
         == [Text(x), Text("\n"), Text(m), Text("\n"), Open(r)] + EntriesTokens([])
  {
  }



  /**
   * Regrouping an append, stated over opaque sequences so that a caller's
   * concrete token functions are not unfolded to prove it.
   */
  lemma AppendAssoc(a: seq<Token>, b: seq<Token>, c: seq<Token>)
    ensures a + b + c == a + (b + c)
  {
  }

  // Appending tokens one at a time appends them as a block. Stated over
  // opaque sequences so that the caller's trace is not unfolded to prove it.

  lemma Two(before: seq<Token>, a: Token, b: Token)
    ensures before + [a] + [b] == before + [a, b]
  {
  }

  lemma Four(before: seq<Token>, a: Token, b: Token, c: Token, d: Token)
    ensures before + [a] + [b] + [c] + [d] == before + [a, b, c, d]
  {
  }

  lemma Six(before: seq<Token>, a: Token, b: Token, c: Token, d: Token, e: Token, f: Token)
    ensures before + [a] + [b] + [c] + [d] + [e] + [f] == before + [a, b, c, d, e, f]
  {
  }

  lemma TermsSnoc(before: seq<Token>, ts: seq<Term>, i: nat, inFact: bool)
    requires i < |ts|
    ensures before + TermsTokens(ts[..i], inFact) + TermTokens(ts[i], inFact) == before + TermsTokens(ts[..i + 1], inFact)
  {
    assert ts[..i + 1][..i] == ts[..i];
  }

  lemma EntriesSnoc(es: seq<Entry>, e: Entry)
    ensures EntriesTokens(es + [e]) == EntriesTokens(es) + EntryTokens(e)
  {
    assert (es + [e])[..|es|] == es;
  }

  lemma AtomsSnoc(before: seq<Token>, atoms: seq<Atom>, i: nat, inFact: bool)
    requires i < |atoms|
    ensures before + AtomsTokens(atoms[..i], inFact) + AtomTokens(atoms[i], inFact) == before + AtomsTokens(atoms[..i + 1], inFact)
  {
    assert atoms[..i + 1][..i] == atoms[..i];
  }

  /** A valid writer's output is the rendering of the prolog and the entries written, and it sits inside the root element. */
  lemma ValidRenders(w: RuleMLWriter)
    requires w.Valid()
    ensures w.out == RenderFrom(PrologTokens() + EntriesTokens(w.written), 0)
    ensures w.currentIndentSize == 1
  {
    StepTableRenders(w.tokens, w.outs, w.depths, |w.tokens|);
    assert w.tokens[..|w.tokens|] == w.tokens;
    OpenDocumentDepth(w.written);
  }

}
