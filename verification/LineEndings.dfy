/** Line-ending normalisation as two string replacements followed by a third, against a single
    left-to-right scan into lines. */
module LineEndings {

  /** `str.replace`: left to right, without overlaps. */
  function Replace(t: string, old_: string, new_: string): string
    requires old_ != ""
    decreases |t|
  {
    if |t| < |old_| then t
    else if t[..|old_|] == old_ then new_ + Replace(t[|old_|..], old_, new_)
    else [t[0]] + Replace(t[1..], old_, new_)
  }

  function ToLf(t: string): string {
    Replace(Replace(t, "\r\n", "\n"), "\r", "\n")
  }

  /** The dispatch on the style; an unknown style leaves the text in LF form. */
  function Normalize(t: string, style: string): string {
    var lf := ToLf(t);
    if style == "crlf" then Replace(lf, "\n", "\r\n")
    else if style == "cr" then Replace(lf, "\n", "\r")
    else lf
  }

  function Terminator(style: string): string {
    if style == "crlf" then "\r\n" else if style == "cr" then "\r" else "\n"
  }

  // The reference: a scan into lines, each ended by CRLF, CR or LF

  function Lines(t: string): (ls: seq<string>)
    ensures ls != []
    decreases |t|
  {
    if t == "" then [""]
    else if |t| >= 2 && t[0] == '\r' && t[1] == '\n' then [""] + Lines(t[2..])
    else if t[0] == '\r' || t[0] == '\n' then [""] + Lines(t[1..])
    else
      var rest := Lines(t[1..]);
      [[t[0]] + rest[0]] + rest[1..]
  }

  function JoinLines(ls: seq<string>, term: string): string
    requires ls != []
  {
    if |ls| == 1 then ls[0] else ls[0] + term + JoinLines(ls[1..], term)
  }

  ghost predicate Bare(line: string) {
    '\r' !in line && '\n' !in line
  }

  ghost predicate AllBare(ls: seq<string>) {
    forall l :: l in ls ==> Bare(l)
  }

  lemma {:induction false} LinesAreBare(t: string)
    ensures AllBare(Lines(t))
    decreases |t|
  {
    if t == "" {
    } else if |t| >= 2 && t[0] == '\r' && t[1] == '\n' {
      LinesAreBare(t[2..]);
    } else {
      LinesAreBare(t[1..]);
      var rest := Lines(t[1..]);
      assert rest[0] in rest;
      assert forall l :: l in rest[1..] ==> l in rest;
    }
  }

  lemma ReplaceOne(c: char, t: string, old_: string, new_: string)
    requires |old_| == 1
    ensures Replace([c] + t, old_, new_) == (if c == old_[0] then new_ else [c]) + Replace(t, old_, new_)
  {
    assert ([c] + t)[..1] == [c] && ([c] + t)[1..] == t;
    assert old_ == [old_[0]];
  }

  /** The two replacements act on one terminator or one character at a time. */
  lemma ToLfStep(t: string)
    requires t != ""
    ensures |t| >= 2 && t[0] == '\r' && t[1] == '\n' ==> ToLf(t) == "\n" + ToLf(t[2..])
    ensures !(|t| >= 2 && t[0] == '\r' && t[1] == '\n') ==>
      ToLf(t) == [if t[0] == '\r' then '\n' else t[0]] + ToLf(t[1..])
  {
    if |t| >= 2 && t[0] == '\r' && t[1] == '\n' {
      assert t[..2] == "\r\n";
      ReplaceOne('\n', Replace(t[2..], "\r\n", "\n"), "\r", "\n");
    } else {
      if |t| >= 2 {
        assert t[..2] != "\r\n" by {
          assert t[..2][0] == t[0] && t[..2][1] == t[1];
        }
      } else {
        assert t == [t[0]] + t[1..];
      }
      assert Replace(t, "\r\n", "\n") == [t[0]] + Replace(t[1..], "\r\n", "\n");
      ReplaceOne(t[0], Replace(t[1..], "\r\n", "\n"), "\r", "\n");
    }
  }

  lemma JoinEmpty(ls: seq<string>, term: string)
    requires ls != []
    ensures JoinLines([""] + ls, term) == term + JoinLines(ls, term)
  {
    assert ([""] + ls)[1..] == ls;
  }

  lemma {:induction false} ToLfJoinsLines(t: string)
    ensures ToLf(t) == JoinLines(Lines(t), "\n")
    decreases |t|
  {
    if t != "" {
      ToLfStep(t);
      if |t| >= 2 && t[0] == '\r' && t[1] == '\n' {
        ToLfJoinsLines(t[2..]);
        JoinEmpty(Lines(t[2..]), "\n");
      } else {
        ToLfJoinsLines(t[1..]);
        if t[0] == '\r' || t[0] == '\n' {
          JoinEmpty(Lines(t[1..]), "\n");
        }
      }
    }
  }

  lemma {:induction false} ReplaceSkipsBare(line: string, rest: string, term: string)
    requires Bare(line)
    ensures Replace(line + rest, "\n", term) == line + Replace(rest, "\n", term)
    decreases |line|
  {
    if line == "" {
      assert line + rest == rest;
    } else {
      assert line + rest == [line[0]] + (line[1..] + rest);
      ReplaceOne(line[0], line[1..] + rest, "\n", term);
      ReplaceSkipsBare(line[1..], rest, term);
    }
  }

  lemma {:induction false} ReplaceRejoins(ls: seq<string>, term: string)
    requires ls != [] && AllBare(ls)
    ensures Replace(JoinLines(ls, "\n"), "\n", term) == JoinLines(ls, term)
    decreases |ls|
  {
    assert ls[0] in ls;
    if |ls| == 1 {
      ReplaceSkipsBare(ls[0], "", term);
      assert ls[0] + "" == ls[0];
    } else {
      ReplaceRejoins(ls[1..], term);
      var rest := JoinLines(ls[1..], "\n");
      assert JoinLines(ls, "\n") == ls[0] + ("\n" + rest);
      ReplaceSkipsBare(ls[0], "\n" + rest, term);
      ReplaceOne('\n', rest, "\n", term);
    }
  }

  /** Normalising is splitting into lines and joining them with the style's terminator. */
  lemma NormalizeJoinsLines(t: string, style: string)
    ensures Normalize(t, style) == JoinLines(Lines(t), Terminator(style))
    ensures Terminator(style) == if style == "crlf" then "\r\n" else if style == "cr" then "\r" else "\n"
  {
    ToLfJoinsLines(t);
    LinesAreBare(t);
    ReplaceRejoins(Lines(t), Terminator(style));
  }

  /** The text consists of these lines, each but the last ended by LF, CRLF, or a CR that no LF follows. */
  ghost predicate ConsistsOf(t: string, ls: seq<string>)
    decreases |ls|
  {
    && ls != [] && Bare(ls[0])
    && if |ls| == 1 then t == ls[0]
       else exists term, rest :: EndsLine(term, rest) && t == ls[0] + term + rest && ConsistsOf(rest, ls[1..])
  }

  ghost predicate EndsLine(term: string, rest: string) {
    term == "\n" || term == "\r\n" || (term == "\r" && (rest == "" || rest[0] != '\n'))
  }

  /** Every text consists of its lines, and of no others. */
  lemma LinesIff(t: string, ls: seq<string>)
    ensures ConsistsOf(t, ls) <==> ls == Lines(t)
  {
    TextConsistsOfLines(t);
    if ConsistsOf(t, ls) {
      LinesAreUnique(t, ls);
    }
  }

  lemma {:induction false} TextConsistsOfLines(t: string)
    ensures ConsistsOf(t, Lines(t))
    decreases |t|
  {
    LinesStep(t);
    hide Lines, ConsistsOf;
    if t == "" {
      LastConsists("");
    } else if |t| >= 2 && t[0] == '\r' && t[1] == '\n' {
      TextConsistsOfLines(t[2..]);
      ConsistsCons("", "\r\n", t[2..], Lines(t[2..]));
      assert t == "" + "\r\n" + t[2..];
    } else if t[0] == '\r' || t[0] == '\n' {
      TextConsistsOfLines(t[1..]);
      ConsistsCons("", [t[0]], t[1..], Lines(t[1..]));
      assert t == "" + [t[0]] + t[1..];
    } else {
      TextConsistsOfLines(t[1..]);
      ConsistsLonger(t[0], t[1..], Lines(t[1..]));
      assert t == [t[0]] + t[1..];
    }
  }

  lemma LinesStep(t: string)
    ensures t == "" ==> Lines(t) == [""]
    ensures |t| >= 2 && t[0] == '\r' && t[1] == '\n' ==> Lines(t) == [""] + Lines(t[2..])
    ensures t != "" && !(|t| >= 2 && t[0] == '\r' && t[1] == '\n') ==>
      var rest := Lines(t[1..]);
      Lines(t) == if t[0] == '\r' || t[0] == '\n' then [""] + rest else [[t[0]] + rest[0]] + rest[1..]
  {
  }

  lemma LastConsists(line: string)
    requires Bare(line)
    ensures ConsistsOf(line, [line])
  {
  }

  lemma ConsistsCons(line: string, term: string, rest: string, ls: seq<string>)
    requires Bare(line) && EndsLine(term, rest) && ConsistsOf(rest, ls)
    ensures ConsistsOf(line + term + rest, [line] + ls)
  {
    var s := [line] + ls;
    hide Bare, EndsLine;
    assert ls != [];
    assert s[1..] == ls && s[0] == line && |s| > 1;
    assert line + term + rest == s[0] + term + rest && ConsistsOf(rest, s[1..]);
  }

  lemma LastIsText(t: string, ls: seq<string>)
    requires ConsistsOf(t, ls) && |ls| == 1
    ensures Bare(t) && ls == [t]
  {
  }

  lemma FirstLine(t: string, ls: seq<string>) returns (term: string, rest: string)
    requires ConsistsOf(t, ls) && |ls| > 1
    ensures Bare(ls[0]) && EndsLine(term, rest) && t == ls[0] + term + rest && ConsistsOf(rest, ls[1..])
  {
    hide Bare, EndsLine;
    term, rest :| EndsLine(term, rest) && t == ls[0] + term + rest && ConsistsOf(rest, ls[1..]);
  }

  lemma ConsistsLonger(c: char, t: string, ls: seq<string>)
    requires c != '\r' && c != '\n' && ConsistsOf(t, ls)
    ensures ls != [] && ConsistsOf([c] + t, [[c] + ls[0]] + ls[1..])
  {
    assert ls != [];
    hide ConsistsOf, EndsLine, Bare;
    if |ls| == 1 {
      LastIsText(t, ls);
      BareLonger(c, t);
      LastConsists([c] + t);
      assert [[c] + ls[0]] + ls[1..] == [[c] + t];
    } else {
      var term, rest := FirstLine(t, ls);
      BareLonger(c, ls[0]);
      ConsistsCons([c] + ls[0], term, rest, ls[1..]);
      PrependConcat(c, ls[0], term, rest);
    }
  }

  lemma BareLonger(c: char, line: string)
    requires Bare(line) && c != '\r' && c != '\n'
    ensures Bare([c] + line)
  {
  }

  lemma PrependConcat(c: char, line: string, term: string, rest: string)
    ensures [c] + (line + term + rest) == [c] + line + term + rest
  {
  }

  lemma {:induction false} LinesAreUnique(t: string, ls: seq<string>)
    requires ConsistsOf(t, ls)
    ensures ls == Lines(t)
    decreases |ls|
  {
    assert ls != [];
    hide Bare, EndsLine, Lines, ConsistsOf;
    if |ls| == 1 {
      LastIsText(t, ls);
      LinesOfLast(t);
    } else {
      var term, rest := FirstLine(t, ls);
      LinesAreUnique(rest, ls[1..]);
      LinesOfEnded(ls[0], term, rest);
      assert ls == [ls[0]] + ls[1..];
    }
  }

  lemma LinesOfEnded(line: string, term: string, rest: string)
    requires Bare(line) && EndsLine(term, rest)
    ensures Lines(line + term + rest) == [line] + Lines(rest)
  {
    hide Lines, Bare;
    LinesOfTerminated(term, rest);
    LinesSkipBare(line, term + rest);
    assert line + term + rest == line + (term + rest) && line + "" == line;
    assert ([""] + Lines(rest))[1..] == Lines(rest);
  }

  lemma {:induction false} LinesSkipBare(line: string, rest: string)
    requires Bare(line)
    ensures Lines(line + rest) == [line + Lines(rest)[0]] + Lines(rest)[1..]
    decreases |line|
  {
    if line == "" {
      assert line + rest == rest;
      assert line + Lines(rest)[0] == Lines(rest)[0];
    } else {
      assert (line + rest)[1..] == line[1..] + rest;
      assert line[0] in line && (line + rest)[0] == line[0];
      LinesSkipBare(line[1..], rest);
      assert line + Lines(rest)[0] == [line[0]] + (line[1..] + Lines(rest)[0]);
    }
  }

  lemma LinesOfTerminated(term: string, rest: string)
    requires term in {"\n", "\r", "\r\n"} && (term == "\r" ==> rest == "" || rest[0] != '\n')
    ensures Lines(term + rest) == [""] + Lines(rest)
  {
    assert (term + rest)[|term|..] == rest;
  }

  lemma {:induction false} LinesOfJoin(ls: seq<string>, style: string)
    requires ls != [] && AllBare(ls)
    ensures Lines(JoinLines(ls, Terminator(style))) == ls
    decreases |ls|
  {
    hide Lines, Bare, Terminator;
    assert ls[0] in ls;
    if |ls| == 1 {
      LinesOfLast(ls[0]);
    } else {
      var rest := JoinLines(ls[1..], Terminator(style));
      LinesOfJoin(ls[1..], style);
      JoinStart(ls[1..]);
      hide JoinLines;
      LinesOfHead(ls[0], style, rest);
      assert ls == [ls[0]] + ls[1..];
    }
  }

  lemma LinesOfHead(line: string, style: string, rest: string)
    requires Bare(line) && (Terminator(style) == "\r" ==> rest == "" || rest[0] != '\n')
    ensures Lines(line + Terminator(style) + rest) == [line] + Lines(rest)
  {
    hide Lines, Bare;
    LinesOfEnded(line, Terminator(style), rest);
  }

  lemma LinesOfLast(line: string)
    requires Bare(line)
    ensures Lines(line) == [line]
  {
    LinesSkipBare(line, "");
    assert line + "" == line;
    assert Lines("") == [""];
  }

  lemma JoinStart(ls: seq<string>)
    requires ls != [] && AllBare(ls)
    ensures JoinLines(ls, "\r") == "" || JoinLines(ls, "\r")[0] != '\n'
  {
    assert ls[0] in ls;
    if ls[0] == "" {
      assert |ls| > 1 ==> JoinLines(ls, "\r")[0] == '\r';
    } else {
      assert JoinLines(ls, "\r")[0] == ls[0][0];
      assert ls[0][0] in ls[0];
    }
  }

  /** The lines, and with them the number of terminators, survive every normalisation. */
  lemma NormalizeKeepsLines(t: string, style: string)
    ensures Lines(Normalize(t, style)) == Lines(t)
  {
    NormalizeJoinsLines(t, style);
    LinesAreBare(t);
    LinesOfJoin(Lines(t), style);
  }

  /** Normalising to one style and then to another is normalising to the second. */
  lemma LastStyleWins(t: string, first: string, second: string)
    ensures Normalize(Normalize(t, first), second) == Normalize(t, second)
  {
    NormalizeKeepsLines(t, first);
    NormalizeJoinsLines(t, second);
    NormalizeJoinsLines(Normalize(t, first), second);
  }
}
