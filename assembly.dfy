/**
 * Assembly of the generation backend's streamed reply into one text: the
 * reply is stripped, split into lines, every non-empty line is parsed as a
 * record, the `response` fields present are concatenated in line order, and
 * the concatenation is stripped.
 */
module Assembly {
  import opened Wrappers
  import opened Messages
  import opened Text

  /**
   * What decoding one non-empty line and looking up `response` in it gives:
   * `Record(Some(t))` when the value decodes to an object whose `response`
   * is the text `t`; `Record(None)` when `response` is not in the value (an
   * object without that key, a string not containing it, a list without it);
   * `Invalid` when decoding fails or the lookup or the concatenation cannot
   * be done (a number, a `response` that is not text, a string or list that
   * does contain it).
   */
  datatype Parsed = Invalid | Record(response: Option<string>)

  /** A line parser, standing for the JSON decoding of one line. */
  type Parser = string -> Parsed

  /**
   * The text one line adds to the assembled reply: it fails, naming the
   * line, exactly when the line is non-empty and does not parse.
   */
  function Contribution(line: string, parse: Parser): (r: Result<string, AgentError>)
    ensures r.Failure? <==> line != "" && parse(line).Invalid?
    ensures r.Failure? ==> r.error == MalformedLine(line)
    ensures r.Success? && r.value != "" ==> parse(line) == Record(Some(r.value))
    ensures line == "" || parse(line) == Record(None) ==> r == Success("")
    ensures line != "" && parse(line).Record? && parse(line).response.Some? ==> r == Success(parse(line).response.value)
  {
    if line == "" then Success("")
    else
      match parse(line)
      case Invalid => Failure(MalformedLine(line))
      case Record(None) => Success("")
      case Record(Some(fragment)) => Success(fragment)
  }

  /**
   * The fragments of `lines` concatenated in order, or the error of the
   * first line that fails.
   */
  function Fragments(lines: seq<string>, parse: Parser): (r: Result<string, AgentError>)
    ensures r.Failure? ==> r.error.MalformedLine?
  {
    if lines == [] then Success("")
    else
      match Contribution(lines[0], parse)
      case Failure(e) => Failure(e)
      case Success(head) =>
        match Fragments(lines[1..], parse)
        case Failure(e) => Failure(e)
        case Success(tail) => Success(head + tail)
  }

  /** Sequential composition of two partial assemblies: the first error wins. */
  function Then(a: Result<string, AgentError>, b: Result<string, AgentError>): (r: Result<string, AgentError>) {
    match a
    case Failure(e) => Failure(e)
    case Success(x) =>
      match b
      case Failure(e) => Failure(e)
      case Success(y) => Success(x + y)
  }

  /** Assembling two runs of lines one after the other is assembling their concatenation. */
  lemma {:induction false} FragmentsAppend(a: seq<string>, b: seq<string>, parse: Parser)
    ensures Fragments(a + b, parse) == Then(Fragments(a, parse), Fragments(b, parse))
  {
    if a != [] {
      assert (a + b)[0] == a[0];
      assert (a + b)[1..] == a[1..] + b;
      FragmentsAppend(a[1..], b, parse);
      match Contribution(a[0], parse)
      case Failure(_) =>
      case Success(h) =>
        match Fragments(a[1..], parse)
        case Failure(_) =>
        case Success(t) =>
          match Fragments(b, parse)
          case Failure(_) =>
          case Success(u) => assert h + (t + u) == (h + t) + u;
    } else {
      assert a + b == b;
      match Fragments(b, parse)
      case Failure(_) =>
      case Success(u) => assert "" + u == u;
    }
  }

  /**
   * A blank line, or a record without a `response` field, contributes
   * nothing: removing it does not change the assembly.
   */
  lemma SilentLineContributesNothing(a: seq<string>, line: string, b: seq<string>, parse: Parser)
    requires line == "" || parse(line) == Record(None)
    ensures Fragments(a + [line] + b, parse) == Fragments(a + b, parse)
  {
    FragmentsAppend(a + [line], b, parse);
    FragmentsAppend(a, [line], parse);
    FragmentsAppend(a, b, parse);
    assert Fragments([line], parse) == Success("");
    match Fragments(a, parse)
    case Failure(_) =>
    case Success(x) => assert x + "" == x;
  }

  /**
   * Assembly fails exactly when some non-empty line does not parse, and then
   * reports the first such line.
   */
  lemma {:induction false} FragmentsFailure(lines: seq<string>, parse: Parser)
    ensures Fragments(lines, parse).Failure? <==>
      exists k :: 0 <= k < |lines| && lines[k] != "" && parse(lines[k]).Invalid?
    ensures Fragments(lines, parse).Failure? ==>
      exists k :: 0 <= k < |lines| && Fragments(lines, parse).error == MalformedLine(lines[k])
        && lines[k] != "" && parse(lines[k]).Invalid?
        && forall j :: 0 <= j < k ==> lines[j] == "" || !parse(lines[j]).Invalid?
  {
    if lines != [] {
      FragmentsFailure(lines[1..], parse);
      if lines[0] != "" && parse(lines[0]).Invalid? {
        assert Fragments(lines, parse).error == MalformedLine(lines[0]);
      } else {
        assert forall k :: 1 <= k < |lines| ==> lines[k] == lines[1..][k - 1];
        if Fragments(lines, parse).Failure? {
          var k :| 0 <= k < |lines[1..]| && Fragments(lines[1..], parse).error == MalformedLine(lines[1..][k])
            && lines[1..][k] != "" && parse(lines[1..][k]).Invalid?
            && forall j :: 0 <= j < k ==> lines[1..][j] == "" || !parse(lines[1..][j]).Invalid?;
          assert lines[k + 1] == lines[1..][k];
          assert forall j :: 0 <= j < k + 1 ==> lines[j] == "" || !parse(lines[j]).Invalid? by {
            forall j | 0 <= j < k + 1 ensures lines[j] == "" || !parse(lines[j]).Invalid? {
              if j > 0 { assert lines[j] == lines[1..][j - 1]; }
            }
          }
        } else {
          assert forall k :: 0 <= k < |lines| ==> lines[k] == "" || !parse(lines[k]).Invalid? by {
            forall k | 0 <= k < |lines| ensures lines[k] == "" || !parse(lines[k]).Invalid? {
              if k > 0 { assert lines[k] == lines[1..][k - 1]; }
            }
          }
        }
      }
    }
  }

  /** The lines the source iterates over: those of the stripped reply. */
  function ReplyLines(text: string): (ls: seq<string>)
    ensures |ls| >= 1 && JoinLines(ls) == Strip(text)
    ensures forall k :: 0 <= k < |ls| ==> '\n' !in ls[k]
  {
    SplitLines(Strip(text))
  }

  /** The assembled reply of the backend's reply text `text`. */
  function Assembled(text: string, parse: Parser): (r: Result<string, AgentError>)
    ensures r.Success? ==> Trimmed(r.value, Whitespace)
    ensures r.Failure? ==> r.error.MalformedLine?
  {
    match Fragments(ReplyLines(text), parse)
    case Failure(e) => Failure(e)
    case Success(joined) => Success(Strip(joined))
  }

  /**
   * Assembly of a reply fails exactly when one of its non-empty lines does
   * not parse, and names the first such line.
   */
  lemma AssembledFailure(text: string, parse: Parser)
    ensures Assembled(text, parse).Failure? <==>
      exists k :: 0 <= k < |ReplyLines(text)| && ReplyLines(text)[k] != "" && parse(ReplyLines(text)[k]).Invalid?
    ensures Assembled(text, parse).Failure? ==>
      exists k :: 0 <= k < |ReplyLines(text)| && Assembled(text, parse).error == MalformedLine(ReplyLines(text)[k])
        && ReplyLines(text)[k] != "" && parse(ReplyLines(text)[k]).Invalid?
        && forall j :: 0 <= j < k ==> ReplyLines(text)[j] == "" || !parse(ReplyLines(text)[j]).Invalid?
  {
    FragmentsFailure(ReplyLines(text), parse);
  }

  /** Assembling one more line adds that line's contribution. */
  lemma FragmentsSnoc(lines: seq<string>, line: string, parse: Parser)
    ensures Fragments(lines + [line], parse) == Then(Fragments(lines, parse), Contribution(line, parse))
  {
    FragmentsAppend(lines, [line], parse);
    assert [line][1..] == [];
    match Contribution(line, parse)
    case Failure(_) =>
    case Success(y) => assert y + "" == y;
  }

  /** Once a prefix of the lines fails, the whole assembly fails the same way. */
  lemma FragmentsPrefixFailure(lines: seq<string>, j: nat, parse: Parser)
    requires j <= |lines| && Fragments(lines[..j], parse).Failure?
    ensures Fragments(lines, parse) == Fragments(lines[..j], parse)
  {
    assert lines == lines[..j] + lines[j..];
    FragmentsAppend(lines[..j], lines[j..], parse);
  }

  /**
   * The accumulation loop of the source: every non-empty line is parsed and
   * its `response` text, if any, appended; the first line that does not
   * parse ends the loop with its error.
   */
  method AccumulateFragments(lines: seq<string>, parse: Parser) returns (r: Result<string, AgentError>)
    ensures r == Fragments(lines, parse)
  {
    var acc := "";
    for i := 0 to |lines|
      invariant Fragments(lines[..i], parse) == Success(acc)
    {
      var line := lines[i];
      assert lines[..i + 1] == lines[..i] + [line];
      FragmentsSnoc(lines[..i], line, parse);
      if line != "" {
        match parse(line)
        case Invalid =>
          FragmentsPrefixFailure(lines, i + 1, parse);
          return Failure(MalformedLine(line));
        case Record(None) =>
          assert acc + "" == acc;
        case Record(Some(fragment)) =>
          acc := acc + fragment;
      } else {
        assert acc + "" == acc;
      }
    }
    assert lines[..|lines|] == lines;
    return Success(acc);
  }

  /** The reply is stripped and split into lines, and the accumulated text stripped. */
  method AssembleResponse(text: string, parse: Parser) returns (r: Result<string, AgentError>)
    ensures r == Assembled(text, parse)
  {
    var lines := SplitLines(Strip(text));
    var joined := AccumulateFragments(lines, parse);
    match joined
    case Failure(e) => r := Failure(e);
    case Success(t) => r := Success(Strip(t));
  }

  /** The lines of a reply whose first and last characters are visible. */
  lemma {:induction false} ReplyLinesOfJoined(ls: seq<string>)
    requires |ls| >= 1 && forall k :: 0 <= k < |ls| ==> '\n' !in ls[k]
    requires Trimmed(JoinLines(ls), Whitespace)
    ensures ReplyLines(JoinLines(ls)) == ls
  {
    var text := JoinLines(ls);
    StripUnique(text, Whitespace, 0, |text|);
    assert text[0..|text|] == text;
    SplitJoinLines(ls);
  }

  /**
   * Three reply lines, two carrying "Hel" and "lo" and one carrying no
   * `response` field, assemble to "Hello".
   */
  lemma HelloFromThreeLines(l1: string, l2: string, l3: string, parse: Parser)
    requires '\n' !in l1 && '\n' !in l2 && '\n' !in l3
    requires l1 != [] && !IsSpace(l1[0]) && l3 != [] && !IsSpace(l3[|l3| - 1])
    requires parse(l1) == Record(Some("Hel"))
    requires parse(l2) == Record(None)
    requires parse(l3) == Record(Some("lo"))
    ensures Assembled(l1 + "\n" + l2 + "\n" + l3, parse) == Success("Hello")
  {
    var lines := [l1, l2, l3];
    var text := l1 + "\n" + l2 + "\n" + l3;
    assert text == JoinLines(lines) by {
      assert lines[1..] == [l2, l3] && [l2, l3][1..] == [l3];
      assert JoinLines([l3]) == l3;
      assert JoinLines([l2, l3]) == l2 + "\n" + l3;
      assert text == l1 + "\n" + (l2 + "\n" + l3);
    }
    assert Trimmed(text, Whitespace) by {
      assert text[0] == l1[0] && text[|text| - 1] == l3[|l3| - 1];
    }
    ReplyLinesOfJoined(lines);
    FragmentsOfThree(l1, l2, l3, parse);
    StripHello();
  }

  lemma FragmentsOfThree(l1: string, l2: string, l3: string, parse: Parser)
    requires l1 != [] && l3 != []
    requires parse(l1) == Record(Some("Hel"))
    requires parse(l2) == Record(None)
    requires parse(l3) == Record(Some("lo"))
    ensures Fragments([l1, l2, l3], parse) == Success("Hello")
  {
    assert Fragments([l3], parse) == Success("lo") by {
      assert [l3][1..] == [];
      assert "lo" + "" == "lo";
    }
    assert Fragments([l2, l3], parse) == Success("lo") by {
      assert [l2, l3][1..] == [l3];
      assert "" + "lo" == "lo";
    }
    assert [l1, l2, l3][1..] == [l2, l3];
    assert "Hel" + "lo" == "Hello";
  }

  lemma StripHello()
    ensures Strip("Hello") == "Hello"
  {
    assert 'H' !in Whitespace && 'o' !in Whitespace;
    StripUnique("Hello", Whitespace, 0, 5);
    assert "Hello"[0..5] == "Hello";
  }
}
