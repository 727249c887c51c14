/**
 * The filtering writer org.eigenbase.util.StackWriter as a class. Its fields are
 * the Java fields; the underlying java.io.Writer is the append-only sequence
 * `out`. Every method is proved against the value-level functions of
 * EmitterSpec, where the properties of the emitter are stated and proved.
 */
module StackWriting {
  import opened Options
  import opened EmitterSpec

  /** A normal return or the exception thrown, with the state the writer is left in. */
  function Report(s: WriterState, fault: Option<Fault>): Outcome
  {
    if fault.None? then Done(s) else Threw(fault.value, s)
  }

  class StackWriter {
    var indentationDepth: int
    const indentation: string
    var needIndent: bool
    var quoteStack: seq<char>
    /** Everything written to the underlying writer so far. */
    var out: seq<char>

    function State(): WriterState
      reads this
    {
      WriterState(indentationDepth, needIndent, quoteStack, out)
    }

    /** A writer with the given indentation unit, such as IndentTab or IndentSpace4. */
    constructor (indentation: string)
      ensures this.indentation == indentation
      ensures State() == Initial
    {
      this.indentation := indentation;
      indentationDepth := 0;
      needIndent := false;
      quoteStack := [];
      out := [];
    }

    method IndentIfNeeded()
      modifies this
      ensures State() == Emit(indentation, old(State()), [])
    {
      if needIndent {
        var i := 0;
        while i < indentationDepth
          invariant 0 <= i <= (if indentationDepth > 0 then indentationDepth else 0)
          invariant indentationDepth == old(indentationDepth) && needIndent && quoteStack == old(quoteStack)
          invariant out == old(out) + Indentation(indentation, i)
        {
          assert Indentation(indentation, i + 1) == Indentation(indentation, i) + indentation;
          out := out + indentation;
          i := i + 1;
        }
        needIndent := false;
      }
      assert out == old(out) + Prefix(indentation, old(State())) + [];
    }

    /** Writes q once for the empty stack and twice as often for each equal open quote. */
    method WriteQuote(q: char)
      modifies this
      ensures State() == EmitterSpec.WriteQuote(indentation, old(State()), q)
    {
      IndentIfNeeded();
      var n := CopiesOf(q);
      ghost var mid := State();
      var i := 0;
      while i < n
        invariant 0 <= i <= n
        invariant State() == mid.(out := mid.out + Repeat(q, i))
      {
        out := out + [q];
        i := i + 1;
      }
    }

    /** The first loop of writeQuote: 1, doubled for each open quote equal to q. */
    method CopiesOf(q: char) returns (n: nat)
      ensures n == Copies(quoteStack, q)
    {
      n := 1;
      var i := 0;
      while i < |quoteStack|
        invariant 0 <= i <= |quoteStack|
        invariant n == Pow2(multiset(quoteStack[..i])[q])
      {
        assert quoteStack[..i + 1] == quoteStack[..i] + [quoteStack[i]];
        if quoteStack[i] == q {
          n := n * 2;
        }
        i := i + 1;
      }
      assert quoteStack[..i] == quoteStack;
    }

    method PushQuote(q: char)
      modifies this
      ensures State() == EmitterSpec.PushQuote(indentation, old(State()), q)
    {
      WriteQuote(q);
      quoteStack := quoteStack + [q];
    }

    method PopQuote(q: char) returns (fault: Option<Fault>)
      modifies this
      ensures Report(State(), fault) == EmitterSpec.PopQuote(indentation, old(State()), q)
    {
      if |quoteStack| == 0 {
        return Some(NoSuchElement);
      }
      var top := quoteStack[|quoteStack| - 1];
      quoteStack := quoteStack[..|quoteStack| - 1];
      if top != q {
        return Some(MismatchedQuotes);
      }
      WriteQuote(q);
      fault := None;
    }

    /** write(int): a directive or one character. */
    method Write(t: Token) returns (fault: Option<Fault>)
      modifies this
      ensures Report(State(), fault) == Step(indentation, old(State()), t)
    {
      fault := None;
      match t
      case Indent =>
        indentationDepth := indentationDepth + 1;
      case Outdent =>
        indentationDepth := indentationDepth - 1;
      case OpenLit =>
        PushQuote(SingleQuote);
      case CloseLit =>
        fault := PopQuote(SingleQuote);
      case OpenId =>
        PushQuote(DoubleQuote);
      case CloseId =>
        fault := PopQuote(DoubleQuote);
      case Ch(c) =>
        if c == '\n' {
          out := out + [c];
          needIndent := true;
        } else if c == '\r' {
          out := out + [c];
        } else if c == SingleQuote || c == DoubleQuote {
          WriteQuote(c);
        } else {
          IndentIfNeeded();
          out := out + [c];
        }
    }

    /** write(str, off, len): the characters one at a time; an index outside str throws
        after the characters before it have been written. */
    method WriteString(str: string, off: int, len: int) returns (fault: Option<Fault>)
      modifies this
      ensures Run(indentation, old(State()), Chars(Slice(str, off, len))) == Done(State())
      ensures fault == if InRange(|str|, off, len) then None else Some(IndexOutOfBounds)
    {
      ghost var start := State();
      var i := off;
      while i < off + len
        invariant off <= i
        invariant i > off ==> 0 <= off && i <= |str| && i <= off + len
        invariant Run(indentation, start, Chars(Handed(str, off, i))) == Done(State())
      {
        if i < 0 || i >= |str| {
          SliceAt(str, off, len, i);
          return Some(IndexOutOfBounds);
        }
        ghost var before := State();
        var f := Write(Ch(str[i]));
        HandOneMore(indentation, start, str, off, i, before, State(), f);
        i := i + 1;
      }
      SliceAt(str, off, len, i);
      fault := None;
    }

    /** write(cbuf, off, len): as WriteString, over a character array. */
    method WriteChars(cbuf: array<char>, off: int, len: int) returns (fault: Option<Fault>)
      modifies this
      ensures Run(indentation, old(State()), Chars(Slice(cbuf[..], off, len))) == Done(State())
      ensures fault == if InRange(cbuf.Length, off, len) then None else Some(IndexOutOfBounds)
    {
      ghost var start := State();
      var i := off;
      while i < off + len
        invariant off <= i
        invariant i > off ==> 0 <= off && i <= cbuf.Length && i <= off + len
        invariant Run(indentation, start, Chars(Handed(cbuf[..], off, i))) == Done(State())
      {
        if i < 0 || i >= cbuf.Length {
          SliceAt(cbuf[..], off, len, i);
          return Some(IndexOutOfBounds);
        }
        ghost var before := State();
        var f := Write(Ch(cbuf[i]));
        HandOneMore(indentation, start, cbuf[..], off, i, before, State(), f);
        i := i + 1;
      }
      SliceAt(cbuf[..], off, len, i);
      fault := None;
    }
  }

  /** One more character handed over by a bulk write: one more step, which returns normally. */
  lemma HandOneMore(unit: string, start: WriterState, text: string, off: int, i: int,
                    before: WriterState, after: WriterState, fault: Option<Fault>)
    requires 0 <= off <= i < |text|
    requires Run(unit, start, Chars(Handed(text, off, i))) == Done(before)
    requires Report(after, fault) == Step(unit, before, Ch(text[i]))
    ensures fault == None
    ensures Run(unit, start, Chars(Handed(text, off, i + 1))) == Done(after)
  {
    CharsSnoc(unit, start, Handed(text, off, i), text[i], before);
    assert Handed(text, off, i) + [text[i]] == Handed(text, off, i + 1);
  }

  /** printSqlStringLiteral: open a literal, the text, close it. It never throws. */
  method PrintSqlStringLiteral(w: StackWriter, s: string)
    modifies w
    ensures Run(w.indentation, old(w.State()), SqlStringLiteral(s)) == Done(w.State())
  {
    PrintQuoted(w, s, OpenLit, CloseLit, SingleQuote);
  }

  /** printSqlIdentifier: open an identifier, the text, close it. It never throws. */
  method PrintSqlIdentifier(w: StackWriter, s: string)
    modifies w
    ensures Run(w.indentation, old(w.State()), SqlIdentifier(s)) == Done(w.State())
  {
    PrintQuoted(w, s, OpenId, CloseId, DoubleQuote);
  }

  method PrintQuoted(w: StackWriter, s: string, open: Token, close: Token, q: char)
    requires (open == OpenLit && close == CloseLit && q == SingleQuote)
          || (open == OpenId && close == CloseId && q == DoubleQuote)
    modifies w
    ensures Run(w.indentation, old(w.State()), [open] + Chars(s) + [close]) == Done(w.State())
  {
    ghost var s0 := w.State();
    var _ := w.Write(open);
    ghost var s1 := w.State();
    assert Run(w.indentation, s0, [open]) == Done(s1);
    var _ := w.WriteString(s, 0, |s|);
    ghost var s2 := w.State();
    assert Slice(s, 0, |s|) == s;
    CharsPlain(s);
    RunPlain(w.indentation, s1, Chars(s));
    assert s2.quotes == s0.quotes + [q];
    RunThen(w.indentation, s0, [open], Chars(s), s1, s2);
    var _ := w.Write(close);
    assert (s0.quotes + [q])[..|s0.quotes|] == s0.quotes;
    RunSnoc(w.indentation, s0, [open] + Chars(s), close, s2);
  }
}
