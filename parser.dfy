/** The response parser: the model's output is read by line position, four
    `key: value` lines whose keys are ignored. */
module ResponseParser {
  import opened Wrappers
  import opened Text

  /** The four fields the parser extracts, in positional order. */
  datatype Reply = Reply(reasonDetailed: string, suggestedDetailed: string, reason: string, suggested: string)

  /** Why parsing stops: line `index` (counting non-blank lines from 0) does
      not exist, or holds no colon.  Both are an `IndexError` in the job. */
  datatype ParseError = MissingLine(index: nat) | MissingColon(index: nat) {
    function Index(): nat {
      match this
      case MissingLine(i) => i
      case MissingColon(i) => i
    }
  }

  /** `[ln.strip() for ln in lines if ln.strip()]`. */
  function NonBlank(lines: seq<string>): (r: seq<string>)
    ensures |r| <= |lines|
  {
    if lines == [] then []
    else
      var t := Trim(lines[0]);
      if t == [] then NonBlank(lines[1..]) else [t] + NonBlank(lines[1..])
  }

  /** The non-blank lines of the model's output, after `out.strip()`. */
  function Lines(out: string): seq<string> {
    NonBlank(Split(Trim(out), '\n'))
  }

  /** `line.split(":", 1)[1].strip()`, or `None` when `line` has no colon. */
  function AfterColon(line: string): (r: Option<string>)
    ensures r.Some? <==> ':' in line
  {
    match IndexOf(line, ':')
    case None => None
    case Some(k) => Some(Trim(line[k + 1..]))
  }

  /** The value is the text after the first colon, trimmed. */
  lemma AfterFirstColon(line: string, k: nat)
    requires k < |line| && line[k] == ':' && ':' !in line[..k]
    ensures AfterColon(line) == Some(Trim(line[k + 1..]))
  {
    IndexOfUnique(line, ':', k);
  }

  /** `lines[i].split(":", 1)[1].strip()`, with the two ways it fails. */
  function Field(lines: seq<string>, i: nat): Result<string, ParseError> {
    if i >= |lines| then Failure(MissingLine(i))
    else
      var v := AfterColon(lines[i]);
      if v.None? then Failure(MissingColon(i)) else Success(v.value)
  }

  /** A field is read when its line exists and holds a colon; otherwise the
      error names the line and says which of the two it lacks. */
  lemma FieldMeaning(lines: seq<string>, i: nat)
    ensures Field(lines, i).Success? <==> i < |lines| && ':' in lines[i]
    ensures Field(lines, i).Success? ==> AfterColon(lines[i]) == Some(Field(lines, i).value)
    ensures Field(lines, i).Failure? ==>
              Field(lines, i).error.Index() == i && (Field(lines, i).error.MissingLine? <==> i >= |lines|)
  {
  }

  /** The output parses: at least four non-blank lines, the first four each
      holding a colon. */
  predicate WellFormed(lines: seq<string>) {
    |lines| >= 4 && ':' in lines[0] && ':' in lines[1] && ':' in lines[2] && ':' in lines[3]
  }

  /** The reply, once the four fields are read in order: the first field
      that failed stops the parse. */
  function Collect(f0: Result<string, ParseError>, f1: Result<string, ParseError>,
                   f2: Result<string, ParseError>, f3: Result<string, ParseError>): Result<Reply, ParseError> {
    if f0.Failure? then Failure(f0.error)
    else if f1.Failure? then Failure(f1.error)
    else if f2.Failure? then Failure(f2.error)
    else if f3.Failure? then Failure(f3.error)
    else Success(Reply(f0.value, f1.value, f2.value, f3.value))
  }

  /** Reads (reason_detailed, suggested_detailed, reason, suggested) off
      the non-blank lines, evaluating the four lines in order. */
  function ParseLines(ls: seq<string>): Result<Reply, ParseError> {
    Collect(Field(ls, 0), Field(ls, 1), Field(ls, 2), Field(ls, 3))
  }

  /** Parsing succeeds exactly on well-formed lines, and then yields the
      text after the first colon of each of the first four lines, by
      position. */
  lemma ParseLinesSucceeds(ls: seq<string>)
    ensures ParseLines(ls).Success? <==> WellFormed(ls)
    ensures ParseLines(ls).Success? ==>
              |ls| >= 4 &&
              AfterColon(ls[0]) == Some(ParseLines(ls).value.reasonDetailed) &&
              AfterColon(ls[1]) == Some(ParseLines(ls).value.suggestedDetailed) &&
              AfterColon(ls[2]) == Some(ParseLines(ls).value.reason) &&
              AfterColon(ls[3]) == Some(ParseLines(ls).value.suggested)
  {
    FieldMeaning(ls, 0);
    FieldMeaning(ls, 1);
    FieldMeaning(ls, 2);
    FieldMeaning(ls, 3);
  }

  /** Before the line a failure names, every line exists and holds a colon. */
  lemma FailureAfterGoodLines(ls: seq<string>)
    ensures ParseLines(ls).Failure? ==>
              var i := ParseLines(ls).error.Index();
              i < 4 &&
              (i > 0 ==> 0 < |ls| && ':' in ls[0]) &&
              (i > 1 ==> 1 < |ls| && ':' in ls[1]) &&
              (i > 2 ==> 2 < |ls| && ':' in ls[2])
  {
    FieldStops(ls);
    FieldMeaning(ls, 0);
    FieldMeaning(ls, 1);
    FieldMeaning(ls, 2);
    FieldMeaning(ls, 3);
  }

  /** The first of the four fields that fails gives the parse its error. */
  lemma FieldStops(ls: seq<string>)
    ensures var f0, f1, f2, f3 := Field(ls, 0), Field(ls, 1), Field(ls, 2), Field(ls, 3);
      (f0.Failure? ==> ParseLines(ls) == Failure(f0.error)) &&
      (f0.Success? && f1.Failure? ==> ParseLines(ls) == Failure(f1.error)) &&
      (f0.Success? && f1.Success? && f2.Failure? ==> ParseLines(ls) == Failure(f2.error)) &&
      (f0.Success? && f1.Success? && f2.Success? && f3.Failure? ==> ParseLines(ls) == Failure(f3.error)) &&
      (f0.Success? && f1.Success? && f2.Success? && f3.Success? ==> ParseLines(ls).Success?)
  {
    FieldMeaning(ls, 0);
    FieldMeaning(ls, 1);
    FieldMeaning(ls, 2);
    FieldMeaning(ls, 3);
  }

  /** A failure names the first of the four lines that is missing or has
      no colon. */
  lemma ParseLinesFails(ls: seq<string>)
    ensures ParseLines(ls).Failure? ==>
              var i := ParseLines(ls).error.Index();
              i < 4 &&
              (forall j :: 0 <= j < i ==> j < |ls| && ':' in ls[j]) &&
              (ParseLines(ls).error.MissingLine? <==> i >= |ls|) &&
              (ParseLines(ls).error.MissingColon? ==> ':' !in ls[i])
  {
    FieldStops(ls);
    FieldMeaning(ls, 0);
    FieldMeaning(ls, 1);
    FieldMeaning(ls, 2);
    FieldMeaning(ls, 3);
    if ParseLines(ls).Failure? {
      var i := ParseLines(ls).error.Index();
      FailureAfterGoodLines(ls);
      forall j | 0 <= j < i ensures j < |ls| && ':' in ls[j] {
        if j == 0 {} else if j == 1 {} else { assert j == 2; }
      }
    }
  }

  /** Parses the model's output. */
  function Parse(out: string): Result<Reply, ParseError> {
    ParseLines(Lines(out))
  }

  lemma {:induction false} NonBlankConcat(xs: seq<string>, ys: seq<string>)
    ensures NonBlank(xs + ys) == NonBlank(xs) + NonBlank(ys)
  {
    if xs == [] {
      assert xs + ys == ys;
    } else {
      assert (xs + ys)[0] == xs[0];
      assert (xs + ys)[1..] == xs[1..] + ys;
      NonBlankConcat(xs[1..], ys);
    }
  }

  lemma {:induction false} NonBlankOfSpaces(xs: seq<string>)
    requires forall i :: 0 <= i < |xs| ==> AllSpace(xs[i])
    ensures NonBlank(xs) == []
  {
    if xs != [] {
      TrimAllSpace(xs[0]);
      NonBlankOfSpaces(xs[1..]);
    }
  }

  /** When no line is blank, every line is kept, trimmed. */
  lemma {:induction false} NonBlankKeepsAll(xs: seq<string>)
    requires forall i :: 0 <= i < |xs| ==> Trim(xs[i]) != []
    ensures NonBlank(xs) == seq(|xs|, i requires 0 <= i < |xs| => Trim(xs[i]))
  {
    if xs != [] {
      NonBlankKeepsAll(xs[1..]);
    }
  }

  lemma NonBlankCons(xs: seq<string>)
    requires |xs| >= 1
    ensures NonBlank(xs) == NonBlank([xs[0]]) + NonBlank(xs[1..])
  {
    var h, t := [xs[0]], Trim(xs[0]);
    assert h[1..] == [];
    assert NonBlank(h) == (if t == [] then [] else [t]);
    assert NonBlank(xs) == (if t == [] then [] else [t]) + NonBlank(xs[1..]);
  }

  lemma NonBlankSameTrim(x: string, y: string)
    requires Trim(x) == Trim(y)
    ensures NonBlank([x]) == NonBlank([y])
  {
    assert [x][1..] == [] && [y][1..] == [];
  }

  /** Whitespace-only lines before a line are dropped, and the line counts
      only through its trimmed text. */
  lemma NonBlankDropLeading(first: seq<string>, x: string, y: string, rest: seq<string>)
    requires forall i :: 0 <= i < |first| ==> AllSpace(first[i])
    requires Trim(x) == Trim(y)
    ensures NonBlank(first + [x] + rest) == NonBlank([y] + rest)
  {
    var a := first + [x];
    var nf, nx, ny, nr := NonBlank(first), NonBlank([x]), NonBlank([y]), NonBlank(rest);
    NonBlankConcat(a, rest);
    NonBlankConcat(first, [x]);
    NonBlankOfSpaces(first);
    NonBlankSameTrim(x, y);
    NonBlankConcat([y], rest);
    assert nf + nx == nx;
  }

  /** Whitespace-only lines after a line are dropped, and the line counts
      only through its trimmed text. */
  lemma NonBlankDropTrailing(first: seq<string>, x: string, y: string, rest: seq<string>)
    requires forall i :: 0 <= i < |rest| ==> AllSpace(rest[i])
    requires Trim(x) == Trim(y)
    ensures NonBlank(first + [x] + rest) == NonBlank(first + [y])
  {
    var a := first + [x];
    var nf, nx, ny, nr := NonBlank(first), NonBlank([x]), NonBlank([y]), NonBlank(rest);
    NonBlankConcat(a, rest);
    NonBlankConcat(first, [x]);
    NonBlankOfSpaces(rest);
    NonBlankSameTrim(x, y);
    NonBlankConcat(first, [y]);
    assert (nf + nx) + nr == nf + nx;
  }

  /** The pieces of a whitespace-only text before its last one. */
  lemma SpaceInitialPieces(w: string, c: char, first: seq<string>)
    requires AllSpace(w) && first == Split(w, c)[..|Split(w, c)| - 1]
    ensures forall i :: 0 <= i < |first| ==> AllSpace(first[i])
  {
    SplitAllSpace(w, c);
  }

  /** The pieces of a whitespace-only text after its first one. */
  lemma SpaceFinalPieces(w: string, c: char, rest: seq<string>)
    requires AllSpace(w) && rest == Split(w, c)[1..]
    ensures forall i :: 0 <= i < |rest| ==> AllSpace(rest[i])
  {
    SplitAllSpace(w, c);
  }

  lemma NonBlankSpacePrefix(w: string, m: string)
    requires AllSpace(w)
    ensures NonBlank(Split(w + m, '\n')) == NonBlank(Split(m, '\n'))
  {
    var sw, sm := Split(w, '\n'), Split(m, '\n');
    SplitAppend(w, m, '\n');
    var first := sw[..|sw| - 1];
    var fused := sw[|sw| - 1] + sm[0];
    assert Split(w + m, '\n') == first + [fused] + sm[1..];
    SpaceInitialPieces(w, '\n', first);
    SplitAllSpace(w, '\n');
    TrimSpacePrefix(sw[|sw| - 1], sm[0]);
    NonBlankDropLeading(first, fused, sm[0], sm[1..]);
    NonBlankCons(sm);
    NonBlankConcat([sm[0]], sm[1..]);
  }

  lemma InitLast(xs: seq<string>)
    requires |xs| >= 1
    ensures xs == xs[..|xs| - 1] + [xs[|xs| - 1]]
  {
  }

  /** Gluing whitespace-only pieces onto the end of a list of lines keeps
      its non-blank lines. */
  lemma NonBlankFuseSpaces(xs: seq<string>, ys: seq<string>)
    requires |xs| >= 1 && |ys| >= 1
    requires forall i :: 0 <= i < |ys| ==> AllSpace(ys[i])
    ensures NonBlank(Fuse(xs, ys)) == NonBlank(xs)
  {
    var first, last, rest := xs[..|xs| - 1], xs[|xs| - 1], ys[1..];
    InitLast(xs);
    assert Fuse(xs, ys) == first + [last + ys[0]] + rest;
    forall i | 0 <= i < |rest| ensures AllSpace(rest[i]) {
      assert rest[i] == ys[i + 1];
    }
    TrimSpaceSuffix(last, ys[0]);
    NonBlankDropTrailing(first, last + ys[0], last, rest);
  }

  lemma NonBlankSpaceSuffix(m: string, w: string)
    requires AllSpace(w)
    ensures NonBlank(Split(m + w, '\n')) == NonBlank(Split(m, '\n'))
  {
    SplitAppend(m, w, '\n');
    SplitAllSpace(w, '\n');
    NonBlankFuseSpaces(Split(m, '\n'), Split(w, '\n'));
  }

  /** Stripping the whole output first changes none of its non-blank lines. */
  lemma LinesIgnoreOuterWhitespace(out: string)
    ensures Lines(out) == NonBlank(Split(out, '\n'))
  {
    var w1, w2 := TrimInfix(out);
    var m := Trim(out);
    assert out == w1 + (m + w2);
    NonBlankSpacePrefix(w1, m + w2);
    NonBlankSpaceSuffix(m, w2);
  }

  /** A text that starts with a non-space, or is empty, then a colon,
      then a text that ends with a non-space, or is empty, is stripped. */
  lemma LabelStripped(l: string, v: string)
    requires (l == [] || !IsSpace(l[0])) && (v == [] || !IsSpace(v[|v| - 1]))
    ensures Stripped(l + ":" + v)
  {
    var m := l + ":" + v;
    assert m[0] == (if l == [] then ':' else l[0]);
    assert m[|m| - 1] == (if v == [] then ':' else v[|v| - 1]);
  }

  lemma RegroupLabel(w1: string, l: string, v: string, w2: string)
    ensures (w1 + l) + ":" + (v + w2) == w1 + (l + ":" + v) + w2
  {
  }

  /** A `label:value` line trims to its key trimmed on the left, the
      colon, and its value trimmed on the right. */
  lemma TrimLabelledLine(key: string, value: string)
    ensures Trim(key + ":" + value) == TrimStart(key) + ":" + TrimEnd(value)
  {
    var i, n := LeadingSpace(key), TrailingSpace(value);
    var l, v := key[i..], value[..n];
    var w1, w2 := key[..i], value[n..];
    LeadingSpaceAll(key);
    TrailingSpaceAll(value);
    assert key == w1 + l;
    assert value == v + w2;
    RegroupLabel(w1, l, v, w2);
    LabelStripped(l, v);
    TrimUnique(key + ":" + value, w1, l + ":" + v, w2);
  }

  /** Trimming the right-hand end first does not change the trimmed text. */
  lemma TrimAfterTrimEnd(value: string)
    ensures Trim(TrimEnd(value)) == Trim(value)
  {
    var n := TrailingSpace(value);
    TrailingSpaceAll(value);
    assert value == value[..n] + value[n..];
    TrimSpaceSuffix(value[..n], value[n..]);
  }

  /** The value of a `label:value` line is its value text trimmed, whatever
      the key, and later colons stay in the value. */
  lemma AfterColonOfLabelledLine(key: string, value: string)
    requires ':' !in key
    ensures AfterColon(Trim(key + ":" + value)) == Some(Trim(value))
  {
    TrimLabelledLine(key, value);
    var l, v := TrimStart(key), TrimEnd(value);
    var line := l + ":" + v;
    assert ':' !in l by {
      forall j | 0 <= j < |l| ensures l[j] != ':' {
        assert l[j] == key[LeadingSpace(key) + j];
      }
    }
    assert line[..|l|] == l;
    assert line[|l| + 1..] == v;
    AfterFirstColon(line, |l|);
    TrimAfterTrimEnd(value);
  }

  /** Lines made of `key: value` text are read by position: the first
      four give the reply, whatever follows them. */
  lemma ParseLinesByPosition(ls: seq<string>, rd: string, sd: string, rc: string, sa: string)
    requires |ls| >= 4
    requires AfterColon(ls[0]) == Some(rd) && AfterColon(ls[1]) == Some(sd)
    requires AfterColon(ls[2]) == Some(rc) && AfterColon(ls[3]) == Some(sa)
    ensures ParseLines(ls) == Success(Reply(rd, sd, rc, sa))
  {
    assert WellFormed(ls);
  }

  /** Joining lines that hold no newline and splitting the result again
      gives back the lines, blank ones dropped. */
  lemma LinesOfJoin(all: seq<string>)
    requires |all| >= 1
    requires forall i :: 0 <= i < |all| ==> '\n' !in all[i]
    ensures Lines(Join(all, '\n')) == NonBlank(all)
  {
    SplitJoin(all, '\n');
    LinesIgnoreOuterWhitespace(Join(all, '\n'));
  }

  /** A `key: value` line is never blank, and its value is read back trimmed. */
  lemma LabelledLine(key: string, value: string)
    requires ':' !in key
    ensures Trim(key + ":" + value) != []
    ensures AfterColon(Trim(key + ":" + value)) == Some(Trim(value))
  {
    TrimLabelledLine(key, value);
    AfterColonOfLabelledLine(key, value);
  }

  /** The first four non-blank lines of four `label:value` lines followed
      by further lines are the four lines, trimmed. */
  lemma LinesOfLabelled(keys: seq<string>, values: seq<string>, four: seq<string>, more: seq<string>)
    requires |keys| == 4 && |values| == 4 && |four| == 4
    requires forall i :: 0 <= i < 4 ==> four[i] == keys[i] + ":" + values[i]
    requires forall i :: 0 <= i < 4 ==> ':' !in keys[i] && '\n' !in keys[i] && '\n' !in values[i]
    requires forall j :: 0 <= j < |more| ==> '\n' !in more[j]
    ensures |Lines(Join(four + more, '\n'))| >= 4
    ensures forall i :: 0 <= i < 4 ==> Lines(Join(four + more, '\n'))[i] == Trim(four[i])
  {
    var all := four + more;
    forall i | 0 <= i < |all| ensures '\n' !in all[i] {
      if i < 4 {
        assert all[i] == keys[i] + ":" + values[i];
      }
    }
    LinesOfJoin(all);
    NonBlankConcat(four, more);
    forall i | 0 <= i < 4 ensures Trim(four[i]) != [] {
      LabelledLine(keys[i], values[i]);
    }
    NonBlankKeepsAll(four);
  }

  /** An output of four `label:value` lines followed by any further lines
      parses to the four values, trimmed, in positional order: keys are
      never looked at and the lines after the fourth are ignored. */
  lemma ParsePositional(keys: seq<string>, values: seq<string>, four: seq<string>, more: seq<string>)
    requires |keys| == 4 && |values| == 4 && |four| == 4
    requires forall i :: 0 <= i < 4 ==> four[i] == keys[i] + ":" + values[i]
    requires forall i :: 0 <= i < 4 ==> ':' !in keys[i] && '\n' !in keys[i] && '\n' !in values[i]
    requires forall j :: 0 <= j < |more| ==> '\n' !in more[j]
    ensures Parse(Join(four + more, '\n')) ==
              Success(Reply(Trim(values[0]), Trim(values[1]), Trim(values[2]), Trim(values[3])))
  {
    LinesOfLabelled(keys, values, four, more);
    var ls := Lines(Join(four + more, '\n'));
    forall i | 0 <= i < 4 ensures AfterColon(ls[i]) == Some(Trim(values[i])) {
      LabelledLine(keys[i], values[i]);
    }
    ParseLinesByPosition(ls, Trim(values[0]), Trim(values[1]), Trim(values[2]), Trim(values[3]));
  }

  /** An output of fewer than four lines fails to parse: the job raises
      before it writes anything. */
  lemma ParseTooFewLines(lines: seq<string>)
    requires 1 <= |lines| < 4
    requires forall i :: 0 <= i < |lines| ==> '\n' !in lines[i]
    ensures Parse(Join(lines, '\n')).Failure?
  {
    var out := Join(lines, '\n');
    SplitJoin(lines, '\n');
    LinesIgnoreOuterWhitespace(out);
    assert |Lines(out)| < 4;
    ParseLinesSucceeds(Lines(out));
  }
}
