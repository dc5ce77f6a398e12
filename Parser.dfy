/**
 * The annotated-SQL parser: a file, given as its sequence of lines, becomes the ordered
 * sequence of query specifications it declares.
 *
 * A header line opens a new specification; every other line that is not blank is appended,
 * verbatim and followed by a newline, to the open specification; blank lines are skipped.
 * A body line met while no specification is open dereferences `null`, so the parse fails.
 */
module Parser {
  import opened Wrappers
  import opened Chars
  import opened Header

  datatype Spec = Spec(name: string, kind: string, arg: Option<string>, sql: string)

  /** The `TypeError` raised by `current.sql` while `current` is still `null`. */
  datatype ParseError = BodyBeforeHeader

  /** A specification as a header opens it, with an empty body. */
  function Open(h: Header): Spec {
    Spec(h.name, h.kind, h.arg, "")
  }

  function HeaderOfSpec(s: Spec): Header {
    Header(s.name, s.kind, s.arg)
  }

  /** What one line of the file is to the parser. */
  datatype Line = HeaderLine(header: Header) | BlankLine | BodyLine(text: string)

  /**
   * The header test first (`line.match(...)`), then the blank test (`/^\s*$/`). No header
   * line is blank, so the blank test alone decides which lines are skipped.
   */
  function Classify(line: string): (l: Line)
    ensures l.HeaderLine? ==> HeaderOf(line) == Some(l.header)
    ensures l.BlankLine? <==> IsBlank(line)
    ensures l.BodyLine? ==> l.text == line && HeaderOf(line).None?
  {
    match HeaderOf(line)
    case Some(h) =>
      assert !IsSpace(line[0]) by {
        var lay := Scan(line).value.1;
        assert line == "--" + (lay.afterDashes + (":name" + (lay.afterName + (h.name + (lay.afterIdent
          + (":" + (h.kind + ArgText(h.arg, lay))))))));
      }
      HeaderLine(h)
    case None => if IsBlank(line) then BlankLine else BodyLine(line)
  }

  function Classified(lines: seq<string>): (ls: seq<Line>)
    ensures |ls| == |lines|
    ensures forall i | 0 <= i < |lines| :: ls[i] == Classify(lines[i])
  {
    seq(|lines|, i requires 0 <= i < |lines| => Classify(lines[i]))
  }

  /** Appends one body line to the last (the open) specification. */
  function AddLine(specs: seq<Spec>, text: string): seq<Spec>
    requires specs != []
  {
    var last := specs[|specs| - 1];
    specs[..|specs| - 1] + [last.(sql := last.sql + text + "\n")]
  }

  /**
   * The specifications of a file: those of its classified lines. The parse fails exactly
   * when a body line comes before every header; otherwise there is one specification per
   * header line, in order, carrying that header's captures.
   */
  function Specs(lines: seq<string>): (r: Result<seq<Spec>, ParseError>)
    ensures r.Failure? <==> exists i :: Orphan(Classified(lines), i)
    ensures r.Success? ==> SpecHeaders(r.value) == Headers(Classified(lines))
  {
    var ls := Classified(lines);
    SpecsFailIff(ls);
    if SpecsOf(ls).Success? then
      SpecsFollowHeaders(ls);
      SpecsOf(ls)
    else SpecsOf(ls)
  }

  /**
   * The specifications of classified lines, the open one included as the last; defined line
   * by line from the end, so that each line acts on what the lines before it produced.
   */
  function SpecsOf(ls: seq<Line>): Result<seq<Spec>, ParseError>
  {
    if ls == [] then Success([]) else Step(SpecsOf(ls[..|ls| - 1]), ls[|ls| - 1])
  }

  /** What one line does to the specifications read so far. */
  function Step(so: Result<seq<Spec>, ParseError>, l: Line): Result<seq<Spec>, ParseError>
  {
    match so
    case Failure(e) => Failure(e)
    case Success(specs) =>
      match l
      case HeaderLine(h) => Success(specs + [Open(h)])
      case BlankLine => Success(specs)
      case BodyLine(text) =>
        if specs == [] then Failure(BodyBeforeHeader) else Success(AddLine(specs, text))
  }

  lemma SpecsOfSnoc(ls: seq<Line>, i: nat)
    requires i < |ls|
    ensures SpecsOf(ls[..i + 1]) == Step(SpecsOf(ls[..i]), ls[i])
  {
    assert ls[..i + 1][..i] == ls[..i];
  }

  /** What has been produced so far: the closed specifications and the open one, if any. */
  function Pending(closed: seq<Spec>, current: Option<Spec>): seq<Spec> {
    match current
    case None => closed
    case Some(s) => closed + [s]
  }

  /** The parse loop: reads the lines in order, pushing a specification when the next one opens. */
  method ParseSpecs(lines: seq<string>) returns (result: Result<seq<Spec>, ParseError>)
    ensures result == Specs(lines)
  {
    ghost var ls := Classified(lines);
    var r: seq<Spec> := [];
    var current: Option<Spec> := None;
    for i := 0 to |lines|
      invariant current.None? ==> r == []
      invariant SpecsOf(ls[..i]) == Success(Pending(r, current))
    {
      var line := lines[i];
      SpecsOfSnoc(ls, i);
      assert ls[i] == Classify(line);
      var m := HeaderOf(line);
      if m.Some? {
        if current.Some? {
          r := r + [current.value];
        }
        current := Some(Open(m.value));
      } else if !IsBlank(line) {
        if current.None? {
          FailureSticks(ls, i + 1);
          return Failure(BodyBeforeHeader);
        }
        current := Some(current.value.(sql := current.value.sql + line + "\n"));
        assert (r + [current.value])[..|r|] == r;
      }
    }
    if current.Some? {
      r := r + [current.value];
    }
    assert ls[..|lines|] == ls;
    return Success(r);
  }

  /** Once the parse has failed, no later line changes the outcome. */
  lemma {:induction false} FailureSticks(ls: seq<Line>, n: nat)
    requires n <= |ls|
    requires SpecsOf(ls[..n]).Failure?
    ensures SpecsOf(ls) == SpecsOf(ls[..n])
  {
    if n < |ls| {
      var init := ls[..|ls| - 1];
      assert init[..n] == ls[..n];
      FailureSticks(init, n);
    } else {
      assert ls[..n] == ls;
    }
  }

  /** The headers among the lines, in line order. */
  function Headers(ls: seq<Line>): seq<Header>
  {
    if ls == [] then []
    else Headers(ls[..|ls| - 1]) + if ls[|ls| - 1].HeaderLine? then [ls[|ls| - 1].header] else []
  }

  function SpecHeaders(specs: seq<Spec>): (hs: seq<Header>)
    ensures |hs| == |specs|
  {
    seq(|specs|, i requires 0 <= i < |specs| => HeaderOfSpec(specs[i]))
  }

  /**
   * There is one specification per header line, in header order, each with that header's
   * name, kind and argument.
   */
  lemma {:induction false} SpecsFollowHeaders(ls: seq<Line>)
    requires SpecsOf(ls).Success?
    ensures SpecHeaders(SpecsOf(ls).value) == Headers(ls)
    ensures |SpecsOf(ls).value| == |Headers(ls)|
  {
    if ls != [] {
      var init := ls[..|ls| - 1];
      SpecsFollowHeaders(init);
      var specs := SpecsOf(init).value;
      match ls[|ls| - 1]
      case HeaderLine(h) =>
        assert SpecHeaders(specs + [Open(h)]) == SpecHeaders(specs) + [h];
      case BlankLine =>
      case BodyLine(text) =>
        if specs != [] {
          assert SpecHeaders(AddLine(specs, text)) == SpecHeaders(specs);
        }
    }
  }

  lemma {:induction false} NoHeaders(ls: seq<Line>)
    ensures Headers(ls) == [] <==> forall j | 0 <= j < |ls| :: !ls[j].HeaderLine?
  {
    if ls != [] {
      var init := ls[..|ls| - 1];
      NoHeaders(init);
      assert forall j | 0 <= j < |init| :: init[j] == ls[j];
    }
  }

  /** Line `i` is a body line with no header before it. */
  predicate Orphan(ls: seq<Line>, i: int) {
    0 <= i < |ls| && ls[i].BodyLine? && forall j | 0 <= j < i :: !ls[j].HeaderLine?
  }

  /** The parse fails exactly when a body line comes before every header. */
  lemma {:induction false} SpecsFailIff(ls: seq<Line>)
    ensures SpecsOf(ls).Failure? <==> exists i :: Orphan(ls, i)
  {
    if ls != [] {
      var init := ls[..|ls| - 1];
      SpecsFailIff(init);
      assert forall j | 0 <= j < |init| :: init[j] == ls[j];
      if SpecsOf(init).Failure? {
        var i :| Orphan(init, i);
        assert Orphan(ls, i);
      } else {
        assert forall i :: Orphan(ls, i) && i < |init| ==> Orphan(init, i);
        SpecsFollowHeaders(init);
        NoHeaders(init);
        if SpecsOf(ls).Failure? {
          assert Orphan(ls, |init|);
        }
      }
    }
  }

  /** A blank line anywhere changes nothing: it neither adds text nor closes a specification. */
  lemma {:induction false} BlankLineIgnored(a: seq<Line>, b: seq<Line>)
    ensures SpecsOf(a + [BlankLine] + b) == SpecsOf(a + b)
  {
    if b == [] {
      assert (a + [BlankLine] + b)[..|a|] == a;
      assert a + b == a;
    } else {
      var b' := b[..|b| - 1];
      BlankLineIgnored(a, b');
      assert (a + [BlankLine] + b)[..|a + [BlankLine] + b| - 1] == a + [BlankLine] + b';
      assert (a + b)[..|a + b| - 1] == a + b';
    }
  }

  /** The text a run of lines contributes: each body line, with a newline. */
  function Body(ls: seq<Line>): string
  {
    if ls == [] then ""
    else Body(ls[..|ls| - 1]) + if ls[|ls| - 1].BodyLine? then ls[|ls| - 1].text + "\n" else ""
  }

  predicate NoHeaderIn(ls: seq<Line>) {
    forall j | 0 <= j < |ls| :: !ls[j].HeaderLine?
  }

  /**
   * A header followed by lines that are not headers yields one specification whose `sql`
   * is their body text; with no body lines, `sql` is empty.
   */
  lemma {:induction false} SpecsOfBlock(h: Header, body: seq<Line>)
    requires NoHeaderIn(body)
    ensures SpecsOf([HeaderLine(h)] + body) == Success([Open(h).(sql := Body(body))])
  {
    if body != [] {
      var init := body[..|body| - 1];
      var last := body[|body| - 1];
      assert ([HeaderLine(h)] + body)[..|body|] == [HeaderLine(h)] + init;
      assert ([HeaderLine(h)] + body)[|body|] == last;
      SpecsOfBlock(h, init);
      assert !last.HeaderLine?;
      if last.BlankLine? {
        assert Body(init) + "" == Body(init);
      } else {
        var s0 := Open(h).(sql := Body(init));
        assert [s0][..0] == [];
        assert Body(init) + last.text + "\n" == Body(init) + (last.text + "\n");
        assert AddLine([s0], last.text) == [Open(h).(sql := Body(body))];
      }
    } else {
      assert [HeaderLine(h)] + body == [HeaderLine(h)];
      assert [HeaderLine(h)][..0] == [];
      assert SpecsOf([HeaderLine(h)]) == Step(SpecsOf([]), HeaderLine(h));
      assert [] + [Open(h)] == [Open(h)];
      assert Open(h).(sql := Body(body)) == Open(h);
    }
  }

  /** Lines that start with a header parse to at least one specification. */
  lemma {:induction false} StartsWithHeader(ls: seq<Line>)
    requires ls != [] && ls[0].HeaderLine?
    ensures SpecsOf(ls).Success? && SpecsOf(ls).value != []
  {
    var init := ls[..|ls| - 1];
    if init != [] {
      assert init[0] == ls[0];
      StartsWithHeader(init);
    }
  }

  /** Splitting the lines just before a header splits the result the same way. */
  lemma {:induction false} SpecsConcat(a: seq<Line>, b: seq<Line>)
    requires b == [] || b[0].HeaderLine?
    ensures SpecsOf(b).Success?
    ensures SpecsOf(a + b) == match SpecsOf(a)
                              case Failure(e) => Failure(e)
                              case Success(sa) => Success(sa + SpecsOf(b).value)
  {
    if b == [] {
      assert a + b == a;
      if SpecsOf(a).Success? {
        assert SpecsOf(a).value + [] == SpecsOf(a).value;
      }
    } else {
      var b' := b[..|b| - 1];
      var x := b[|b| - 1];
      assert (a + b)[..|a + b| - 1] == a + b';
      assert (a + b)[|a + b| - 1] == x;
      if b' == [] {
        assert b == [x];
        assert b[..0] == [];
        assert a + b' == a;
        assert [] + [Open(x.header)] == [Open(x.header)];
      } else {
        assert b'[0] == b[0];
        SpecsConcat(a, b');
        StartsWithHeader(b');
        if SpecsOf(a).Success? {
          StepAppend(SpecsOf(a).value, SpecsOf(b').value, x);
        }
      }
    }
  }

  /** A step after a nonempty run of specifications only touches that run. */
  lemma StepAppend(sa: seq<Spec>, sb: seq<Spec>, x: Line)
    requires sb != []
    ensures Step(Success(sb), x).Success?
    ensures Step(Success(sa + sb), x) == Success(sa + Step(Success(sb), x).value)
  {
    match x
    case BodyLine(text) =>
      assert (sa + sb)[..|sa + sb| - 1] == sa + sb[..|sb| - 1];
      assert AddLine(sa + sb, text) == sa + AddLine(sb, text);
    case HeaderLine(h) =>
      assert sa + sb + [Open(h)] == sa + (sb + [Open(h)]);
    case BlankLine =>
  }

  /** Lines that are all blank declare nothing. */
  lemma {:induction false} AllBlankIsEmpty(ls: seq<Line>)
    requires forall j | 0 <= j < |ls| :: ls[j] == BlankLine
    ensures SpecsOf(ls) == Success([])
  {
    if ls != [] {
      AllBlankIsEmpty(ls[..|ls| - 1]);
    }
  }

  /** One annotated query in a file: its header and the lines up to the next header. */
  datatype Block = Block(header: Header, body: seq<Line>)

  function Flatten(blocks: seq<Block>): seq<Line>
  {
    if blocks == [] then []
    else Flatten(blocks[..|blocks| - 1]) + ([HeaderLine(blocks[|blocks| - 1].header)] + blocks[|blocks| - 1].body)
  }

  function SpecOfBlock(b: Block): Spec
  {
    Open(b.header).(sql := Body(b.body))
  }

  /** One specification per block, in block order. */
  function BlockSpecs(blocks: seq<Block>): (specs: seq<Spec>)
    ensures |specs| == |blocks|
    ensures forall k | 0 <= k < |blocks| :: specs[k] == SpecOfBlock(blocks[k])
  {
    if blocks == [] then [] else BlockSpecs(blocks[..|blocks| - 1]) + [SpecOfBlock(blocks[|blocks| - 1])]
  }

  /**
   * A file made of blank lines followed by blocks parses to one specification per block, in
   * block order: the block's header captures, with the block's body text as `sql`.
   */
  lemma {:induction false} SpecsOfBlocks(preamble: seq<Line>, blocks: seq<Block>)
    requires forall j | 0 <= j < |preamble| :: preamble[j] == BlankLine
    requires forall k | 0 <= k < |blocks| :: NoHeaderIn(blocks[k].body)
    ensures SpecsOf(preamble + Flatten(blocks)) == Success(BlockSpecs(blocks))
  {
    if blocks == [] {
      assert preamble + Flatten(blocks) == preamble;
      AllBlankIsEmpty(preamble);
    } else {
      var init := blocks[..|blocks| - 1];
      assert forall k | 0 <= k < |init| :: init[k] == blocks[k];
      SpecsOfBlocks(preamble, init);
      assert blocks == init + [blocks[|blocks| - 1]];
      SpecsOfBlocksSnoc(preamble, init, blocks[|blocks| - 1]);
    }
  }

  /** One more block at the end adds its specification at the end. */
  lemma SpecsOfBlocksSnoc(preamble: seq<Line>, init: seq<Block>, last: Block)
    requires NoHeaderIn(last.body)
    requires SpecsOf(preamble + Flatten(init)) == Success(BlockSpecs(init))
    ensures SpecsOf(preamble + Flatten(init + [last])) == Success(BlockSpecs(init + [last]))
  {
    FlattenSnoc(preamble, init, last);
    SpecsOfBlock(last.header, last.body);
    SpecsConcat(preamble + Flatten(init), [HeaderLine(last.header)] + last.body);
    BlockSpecsSnoc(init, last);
  }

  lemma FlattenSnoc(preamble: seq<Line>, init: seq<Block>, last: Block)
    ensures preamble + Flatten(init + [last]) == (preamble + Flatten(init)) + ([HeaderLine(last.header)] + last.body)
  {
    assert (init + [last])[..|init|] == init;
  }

  lemma BlockSpecsSnoc(init: seq<Block>, last: Block)
    ensures BlockSpecs(init + [last]) == BlockSpecs(init) + [SpecOfBlock(last)]
  {
    assert (init + [last])[..|init|] == init;
  }

}
