/** The relay's line format: fields are escaped, joined by TAB and ended by LF; a
    reader cuts the stream into lines and each line into fields. */
module Wire {

  const TAB := '\t'
  const LF := '\n'
  const CR := '\r'
  const SLASH := '\\'

  /** Replaces every `c` by `t`. */
  function Replace(s: string, c: char, t: string): (r: string)
  {
    if s == "" then "" else (if s[0] == c then t else [s[0]]) + Replace(s[1..], c, t)
  }

  function Esc(s: string): (r: string)
  {
    Replace(Replace(Replace(s, SLASH, [SLASH, SLASH]), TAB, [SLASH, 't']), LF, [SLASH, 'n'])
  }

  function Unesc(s: string): (r: string)
    decreases |s|
  {
    if s == "" then ""
    else if s[0] == SLASH && |s| > 1 then [Meaning(s[1])] + Unesc(s[2..])
    else [s[0]] + Unesc(s[1..])
  }

  /** What a backslash makes of the character after it. */
  function Meaning(c: char): (r: char) { if c == 't' then TAB else if c == 'n' then LF else c }

  method Unescape(s: string) returns (out: string)
    ensures out == Unesc(s)
  {
    hide Unesc;
    out := "";
    var i := 0;
    assert s[0..] == s;
    while i < |s|
      invariant 0 <= i <= |s| && out + Unesc(s[i..]) == Unesc(s)
    {
      UnescAt(s, i);
      ghost var was := out;
      if s[i] == SLASH && i + 1 < |s| {
        out := out + [Meaning(s[i + 1])];
        i := i + 2;
        assert was + ([out[|was|]] + Unesc(s[i..])) == out + Unesc(s[i..]);
      } else {
        out := out + [s[i]];
        i := i + 1;
        assert was + ([out[|was|]] + Unesc(s[i..])) == out + Unesc(s[i..]);
      }
    }
    UnescNone(s[i..]);
  }

  lemma UnescAt(s: string, i: nat)
    requires i < |s|
    ensures Unesc(s[i..]) == if s[i] == SLASH && i + 1 < |s| then [Meaning(s[i + 1])] + Unesc(s[i + 2..]) else [s[i]] + Unesc(s[i + 1..])
  {
    var rest := s[i..];
    assert rest[1..] == s[i + 1..];
    if i + 1 < |s| { assert rest[2..] == s[i + 2..]; }
  }

  lemma UnescNone(s: string)
    requires s == ""
    ensures Unesc(s) == ""
  {
  }

  /** The three replacements together treat every character on its own. */
  function EscChar(c: char): (r: string)
  {
    if c == SLASH then [SLASH, SLASH] else if c == TAB then [SLASH, 't'] else if c == LF then [SLASH, 'n'] else [c]
  }

  lemma {:induction false} ReplaceConcat(a: string, b: string, c: char, t: string)
    ensures Replace(a + b, c, t) == Replace(a, c, t) + Replace(b, c, t)
  {
    if a == "" {
      assert a + b == b;
    } else {
      var h := if a[0] == c then t else [a[0]];
      var ra, rb := Replace(a[1..], c, t), Replace(b, c, t);
      ReplaceConcat(a[1..], b, c, t);
      assert (a + b)[1..] == a[1..] + b;
      assert h + (ra + rb) == h + ra + rb;
    }
  }

  lemma ReplaceOne(d: char, c: char, t: string)
    ensures Replace([d], c, t) == if d == c then t else [d]
  {
    assert [d][1..] == "" && Replace("", c, t) == "";
    assert t + "" == t;
  }

  lemma ReplaceTwo(d: char, e: char, c: char, t: string)
    requires d != c && e != c
    ensures Replace([d, e], c, t) == [d, e]
  {
    assert [d, e] == [d] + [e];
    ReplaceConcat([d], [e], c, t);
    ReplaceOne(d, c, t);
    ReplaceOne(e, c, t);
  }

  lemma EscOne(c: char)
    ensures Esc([c]) == EscChar(c)
  {
    ReplaceOne(c, SLASH, [SLASH, SLASH]);
    if c == SLASH {
      ReplaceTwo(SLASH, SLASH, TAB, [SLASH, 't']);
      ReplaceTwo(SLASH, SLASH, LF, [SLASH, 'n']);
    } else {
      ReplaceOne(c, TAB, [SLASH, 't']);
      if c == TAB { ReplaceTwo(SLASH, 't', LF, [SLASH, 'n']); } else { ReplaceOne(c, LF, [SLASH, 'n']); }
    }
  }

  lemma EscConcat(a: string, b: string)
    ensures Esc(a + b) == Esc(a) + Esc(b)
  {
    var a1, b1 := Replace(a, SLASH, [SLASH, SLASH]), Replace(b, SLASH, [SLASH, SLASH]);
    ReplaceConcat(a, b, SLASH, [SLASH, SLASH]);
    ReplaceConcat(a1, b1, TAB, [SLASH, 't']);
    ReplaceConcat(Replace(a1, TAB, [SLASH, 't']), Replace(b1, TAB, [SLASH, 't']), LF, [SLASH, 'n']);
  }

  lemma EscStep(s: string)
    requires s != ""
    ensures Esc(s) == EscChar(s[0]) + Esc(s[1..])
  {
    hide Esc;
    assert s == [s[0]] + s[1..];
    EscConcat([s[0]], s[1..]);
    EscOne(s[0]);
  }

  /** Unescaping undoes escaping. */
  lemma {:induction false} UnescEsc(s: string)
    ensures Unesc(Esc(s)) == s
  {
    if s != "" {
      var rest := Esc(s[1..]);
      EscStep(s);
      UnescEsc(s[1..]);
      UnescChar(s[0], rest);
    }
  }

  lemma UnescChar(c: char, rest: string)
    ensures Unesc(EscChar(c) + rest) == [c] + Unesc(rest)
  {
    var s := EscChar(c) + rest;
    if c == SLASH || c == TAB || c == LF {
      assert s[2..] == rest;
    } else {
      assert s[1..] == rest;
    }
  }

  /** Escaped text has no TAB and no LF, and ends in CR exactly when the text does. */
  lemma {:induction false} EscFree(s: string)
    ensures TAB !in Esc(s) && LF !in Esc(s)
    ensures (Esc(s) == "" <==> s == "") && (s != "" ==> (Esc(s)[|Esc(s)| - 1] == CR <==> s[|s| - 1] == CR))
  {
    hide Esc;
    if s == "" {
      assert Esc(s) == "" by { EscEmpty(); }
    } else {
      EscStep(s);
      EscFree(s[1..]);
      assert s[1..] != "" ==> s[1..][|s[1..]| - 1] == s[|s| - 1];
    }
  }

  lemma EscEmpty()
    ensures Esc("") == ""
  {
  }

  // ---- frames -----------------------------------------------------------------------

  /** The escaped fields with TABs between them. */
  function Join(fs: seq<string>): (s: string)
  {
    if fs == [] then "" else if |fs| == 1 then Esc(fs[0]) else Esc(fs[0]) + [TAB] + Join(fs[1..])
  }

  function Frame(fs: seq<string>): (s: string) { Join(fs) + [LF] }

  /** Cuts at every TAB. */
  function Split(s: string): (fs: seq<string>)
    ensures |fs| > 0
  {
    if s == "" then [""]
    else
      var rest := Split(s[1..]);
      if s[0] == TAB then [""] + rest else [[s[0]] + rest[0]] + rest[1..]
  }

  /** Drops all trailing CR and LF. */
  function Strip(s: string): (r: string)
  {
    if s != "" && (s[|s| - 1] == CR || s[|s| - 1] == LF) then Strip(s[..|s| - 1]) else s
  }

  function UnescAll(fs: seq<string>): (r: seq<string>)
  {
    seq(|fs|, i requires 0 <= i < |fs| => Unesc(fs[i]))
  }

  /** The fields a reader gets from a line. */
  function Fields(line: string): (fs: seq<string>) { UnescAll(Split(Strip(line))) }

  lemma {:induction false} SplitField(s: string, rest: string)
    requires TAB !in s
    ensures Split(s + [TAB] + rest) == [s] + Split(rest)
  {
    var t := s + [TAB] + rest;
    if s == "" {
      assert t[1..] == rest;
    } else {
      assert t[1..] == s[1..] + [TAB] + rest;
      SplitField(s[1..], rest);
      assert [s[0]] + s[1..] == s;
    }
  }

  lemma {:induction false} SplitLast(s: string)
    requires TAB !in s
    ensures Split(s) == [s]
  {
    if s != "" {
      SplitLast(s[1..]);
      assert [s[0]] + s[1..] == s;
    }
  }

  lemma {:induction false} SplitJoin(fs: seq<string>)
    requires fs != []
    ensures UnescAll(Split(Join(fs))) == fs
  {
    hide Esc, Split, Unesc;
    EscFree(fs[0]);
    UnescEsc(fs[0]);
    if |fs| == 1 {
      SplitLast(Esc(fs[0]));
    } else {
      SplitField(Esc(fs[0]), Join(fs[1..]));
      SplitJoin(fs[1..]);
      var tail := Split(Join(fs[1..]));
      assert UnescAll([Esc(fs[0])] + tail) == [fs[0]] + UnescAll(tail);
    }
  }

  ghost predicate EndsInCR(fs: seq<string>)
  {
    fs != [] && fs[|fs| - 1] != "" && fs[|fs| - 1][|fs[|fs| - 1]| - 1] == CR
  }

  /** A joined frame has no LF, and ends in CR exactly when its last field does. */
  lemma {:induction false} JoinEnd(fs: seq<string>)
    ensures LF !in Join(fs) && (Join(fs) != "" && Join(fs)[|Join(fs)| - 1] == CR <==> EndsInCR(fs))
  {
    hide Esc;
    if fs != [] {
      EscFree(fs[0]);
      if |fs| > 1 { JoinEnd(fs[1..]); }
    }
  }

  /** A frame gives its fields back exactly when there is one and the last does not end
      in CR. */
  lemma FrameBack(fs: seq<string>)
    ensures Fields(Frame(fs)) == fs <==> fs != [] && !EndsInCR(fs)
  {
    hide Join, Split, UnescAll, EndsInCR;
    var j := Join(fs);
    JoinEnd(fs);
    if fs == [] {
      NoFields(Strip(Frame(fs)));
    } else if !EndsInCR(fs) {
      StripFrame(j);
      SplitJoin(fs);
    } else {
      Shorter(fs);
    }
  }

  lemma StripFrame(j: string)
    requires LF !in j && (j == "" || j[|j| - 1] != CR)
    ensures Strip(j + [LF]) == j
  {
    assert (j + [LF])[..|j|] == j;
  }

  lemma NoFields(s: string)
    ensures |UnescAll(Split(s))| > 0
  {
  }

  lemma Shorter(fs: seq<string>)
    requires EndsInCR(fs)
    ensures Fields(Frame(fs)) != fs
  {
    hide Join, Split, UnescAll, EndsInCR;
    var got := Fields(Frame(fs));
    StripEnds(Frame(fs));
    LastField(Strip(Frame(fs)));
  }

  lemma {:induction false} StripEnds(s: string)
    ensures Strip(s) == "" || Strip(s)[|Strip(s)| - 1] != CR
  {
    if s != "" && (s[|s| - 1] == CR || s[|s| - 1] == LF) { StripEnds(s[..|s| - 1]); }
  }

  /** The last field of a text that does not end in CR does not either. */
  lemma {:induction false} LastField(s: string)
    requires s == "" || s[|s| - 1] != CR
    ensures !EndsInCR(UnescAll(Split(s)))
  {
    SplitEnd(s);
    var fs := Split(s);
    UnescEnd(fs[|fs| - 1]);
  }

  lemma {:induction false} SplitEnd(s: string)
    ensures var last := Split(s)[|Split(s)| - 1]; last != "" ==> s != "" && last[|last| - 1] == s[|s| - 1]
  {
    if s != "" {
      SplitEnd(s[1..]);
    }
  }

  lemma {:induction false} UnescEnd(s: string)
    ensures Unesc(s) != "" && Unesc(s)[|Unesc(s)| - 1] == CR ==> s[|s| - 1] == CR
    decreases |s|
  {
    if s == "" {
    } else if s[0] == SLASH && |s| > 1 {
      UnescEnd(s[2..]);
      if s[2..] == "" { assert Unesc(s[2..]) == ""; }
    } else {
      UnescEnd(s[1..]);
      if s[1..] == "" { assert Unesc(s[1..]) == ""; }
    }
  }

  // ---- streams ----------------------------------------------------------------------

  /** The lines of a stream, each with its LF; an unfinished line is not delivered. */
  function Lines(s: string, line: string): (ls: seq<string>)
    decreases |s|
  {
    if s == "" then []
    else if s[0] == LF then [line + [LF]] + Lines(s[1..], "")
    else Lines(s[1..], line + [s[0]])
  }

  function Stream(fss: seq<seq<string>>): (s: string)
  {
    if fss == [] then "" else Frame(fss[0]) + Stream(fss[1..])
  }

  lemma {:induction false} LinesTake(s: string, line: string, rest: string)
    requires LF !in s
    ensures Lines(s + [LF] + rest, line) == [line + s + [LF]] + Lines(rest, "")
    decreases |s|
  {
    var t := s + [LF] + rest;
    if s == "" {
      assert t[1..] == rest && line + s + [LF] == line + [LF];
    } else {
      assert t[1..] == s[1..] + [LF] + rest;
      LinesTake(s[1..], line + [s[0]], rest);
      assert line + [s[0]] + s[1..] == line + s;
    }
  }

  /** However frames are sent one after the other, the reader gets them back one by one,
      with their fields. */
  lemma {:induction false} StreamBack(fss: seq<seq<string>>)
    requires forall i :: 0 <= i < |fss| ==> fss[i] != [] && !EndsInCR(fss[i])
    ensures |Lines(Stream(fss), "")| == |fss|
    ensures forall i :: 0 <= i < |fss| ==> Fields(Lines(Stream(fss), "")[i]) == fss[i]
  {
    hide Join, Fields, Lines, EndsInCR;
    if fss == [] {
      NoLines();
    } else {
      var j, rest := Join(fss[0]), Stream(fss[1..]);
      JoinEnd(fss[0]);
      LinesTake(j, "", rest);
      assert "" + j + [LF] == Frame(fss[0]);
      FrameBack(fss[0]);
      StreamBack(fss[1..]);
    }
  }

  lemma NoLines()
    ensures Lines("", "") == []
  {
  }
}
