/** The configuration table with its printer and parser: a bounded writer fills the
    blob, a state machine reads it back. */
module Config {
  import opened Common
  import opened Grid

  const MAX_ENTRIES := 64
  const MAX_KEY := 63
  const MAX_VALUE := 255
  const MAX_BLOB := 32768
  const TIME_LIMIT := 0x1_0000_0000_0000_0000

  const TAB := '\t'
  const LF := '\n'
  const NUL := '\0'

  datatype Entry = Entry(key: string, value: string, time: nat, persistent: bool, dirty: bool)

  /** What the fixed-size fields of an entry hold: C strings and a 64-bit time. */
  ghost predicate Fits(e: Entry)
  {
    |e.key| <= MAX_KEY && |e.value| <= MAX_VALUE && e.time < TIME_LIMIT && NUL !in e.key && NUL !in e.value
  }

  function Trunc(s: string, n: nat): (r: string) { s[..Least(|s|, n)] }

  // ---- numbers ------------------------------------------------------------------------

  function Digit(d: nat): (c: char)
    requires d < 10
    ensures c != TAB && c != LF && c != NUL
  {
    ['0', '1', '2', '3', '4', '5', '6', '7', '8', '9'][d]
  }

  /** The decimal digits of a positive number; none for zero. */
  function Digits(v: nat): (s: string)
  {
    if v == 0 then "" else Digits(v / 10) + [Digit(v % 10)]
  }

  function Decimal(v: nat): (s: string) { if v == 0 then "0" else Digits(v) }

  predicate IsDigit(c: char) { '0' <= c <= '9' }

  /** Reads digits up to the first other character, modulo 2^64. */
  function ParseFrom(s: string, v: nat): (r: nat)
  {
    if s == "" || !IsDigit(s[0]) then v
    else ParseFrom(s[1..], (v * 10 + (s[0] as int - '0' as int)) % TIME_LIMIT)
  }

  lemma DigitBack(d: nat)
    requires d < 10
    ensures IsDigit(Digit(d)) && Digit(d) as int - '0' as int == d
  {
  }

  /** The digits of `v` bring the parser from 0 to `v`, modulo 2^64. */
  lemma {:induction false} DigitsSteps(v: nat, rest: string)
    ensures ParseFrom(Digits(v) + rest, 0) == ParseFrom(rest, v % TIME_LIMIT)
  {
    hide ParseFrom, Digit;
    if v == 0 {
      assert Digits(v) + rest == rest;
    } else {
      var d := Digit(v % 10);
      assert Digits(v) + rest == Digits(v / 10) + ([d] + rest);
      DigitsSteps(v / 10, [d] + rest);
      OneDigit(v / 10 % TIME_LIMIT, v % 10, rest);
      Carry(v / 10, v % 10);
    }
  }

  lemma OneDigit(v: nat, d: nat, rest: string)
    requires d < 10
    ensures ParseFrom([Digit(d)] + rest, v) == ParseFrom(rest, (v * 10 + d) % TIME_LIMIT)
  {
    DigitBack(d);
    assert ([Digit(d)] + rest)[1..] == rest;
  }

  lemma Carry(a: nat, d: nat)
    ensures (a % TIME_LIMIT * 10 + d) % TIME_LIMIT == (a * 10 + d) % TIME_LIMIT
  {
    Wraps(a % TIME_LIMIT * 10 + d, 10 * (a / TIME_LIMIT), TIME_LIMIT);
  }

  lemma Wraps(x: nat, k: nat, m: nat)
    requires m > 0
    ensures (x + k * m) % m == x % m
  {
    var y := x + k * m;
    PlaceUnique(y % m, y / m, x % m, x / m + k, m);
  }

  /** A printed number is read back, modulo 2^64, whatever follows it but digits. */
  lemma NumberBack(v: nat, rest: string)
    requires rest == "" || rest[0] < '0' || rest[0] > '9'
    ensures ParseFrom(Decimal(v) + rest, 0) == v % TIME_LIMIT
  {
    if v == 0 {
      assert (Decimal(v) + rest)[1..] == rest;
    } else {
      DigitsSteps(v, rest);
    }
  }

  /** A printed time is read back. */
  lemma DecimalBack(v: nat)
    requires v < TIME_LIMIT
    ensures ParseFrom(Decimal(v), 0) == v
  {
    NumberBack(v, "");
    assert Decimal(v) + "" == Decimal(v);
  }

  ghost predicate Plain(s: string) { TAB !in s && LF !in s && NUL !in s }

  lemma {:induction false} DigitsPlain(v: nat, n: nat)
    requires v < Power10(n)
    ensures Plain(Digits(v)) && |Digits(v)| <= n
  {
    if v > 0 { DigitsPlain(v / 10, n - 1); }
  }

  function Power10(n: nat): nat { if n == 0 then 1 else 10 * Power10(n - 1) }

  lemma DecimalPlain(v: nat)
    requires v < TIME_LIMIT
    ensures Plain(Decimal(v)) && 1 <= |Decimal(v)| <= 20
  {
    assert Power10(5) == 100000;
    assert Power10(10) == 10000000000;
    assert Power10(15) == 1000000000000000;
    assert Power10(20) == 100000000000000000000;
    DigitsPlain(v, 20);
  }

  // ---- printing -----------------------------------------------------------------------

  /** The line of an entry; entries without a key have none. */
  function Line(e: Entry): (s: string)
  {
    if e.key == "" then ""
    else e.key + [TAB] + Decimal(e.time) + [TAB] + [if e.persistent then '1' else '0'] + [TAB] + e.value + [LF]
  }

  function Printed(es: seq<Entry>): (s: string)
  {
    if es == [] then "" else Printed(es[..|es| - 1]) + Line(es[|es| - 1])
  }

  /** The output pointer and what remains, over a buffer that always ends the text with
      a NUL. */
  class Writer {
    const blob: array<char>
    var out: nat
    var remaining: nat

    ghost predicate Valid()
      reads this, blob
    {
      remaining >= 1 && out + remaining == blob.Length && blob[out] == NUL
    }

    ghost function Text(): string
      requires Valid()
      reads this, blob
    {
      blob[..out]
    }

    /** The buffer holds as much of `p` as fits. */
    ghost predicate Holds(p: string)
      reads this, blob
    {
      Valid() && Text() == Trunc(p, blob.Length - 1)
    }

    constructor (blob: array<char>)
      requires blob.Length > 0
      modifies blob
      ensures this.blob == blob && Holds("")
    {
      this.blob, out, remaining := blob, 0, blob.Length;
      new;
      blob[0] := NUL;
    }

    method AppendChar(c: char, ghost p: string)
      requires Holds(p)
      modifies this, blob
      ensures Holds(p + [c])
    {
      if remaining <= 1 {
        return;
      }
      blob[out] := c;
      out := out + 1;
      remaining := remaining - 1;
      blob[out] := NUL;
      assert blob[..out] == old(blob[..out]) + [c];
    }

    method AppendStr(s: string, ghost p: string)
      requires Holds(p)
      modifies this, blob
      ensures Holds(p + s)
    {
      var i := 0;
      assert p + s[..0] == p;
      while i < |s| && remaining > 1
        invariant 0 <= i <= |s| && Holds(p + s[..i])
      {
        AppendChar(s[i], p + s[..i]);
        assert p + s[..i] + [s[i]] == p + s[..i + 1];
        i := i + 1;
      }
      assert i == |s| ==> s[..i] == s;
      FullStays(p + s[..i], p + s);
    }

    /** A full buffer holds the start of every longer text. */
    lemma FullStays(p: string, q: string)
      requires Holds(p) && p <= q && (p == q || remaining == 1)
      ensures Holds(q)
    {
      assert |Text()| == out;
    }

    /** Room is left exactly when the text has not reached the end, and then all of it
        is there. */
    lemma Room(p: string)
      requires Holds(p)
      ensures remaining > 1 <==> |p| + 1 < blob.Length
      ensures |p| < blob.Length ==> out == |p| && blob[..out] == p
    {
      assert |Text()| == out;
    }

    method AppendU64(value: nat, ghost p: string)
      requires Holds(p) && value < TIME_LIMIT
      modifies this, blob
      ensures Holds(p + Decimal(value))
    {
      if value == 0 {
        AppendChar('0', p);
        return;
      }
      var tmp := DigitsBackwards(value);
      AppendReversed(tmp, p);
    }

    method AppendReversed(tmp: string, ghost p: string)
      requires Holds(p)
      modifies this, blob
      ensures Holds(p + Reversed(tmp))
    {
      hide Trunc;
      var pos := |tmp|;
      assert p + "" == p;
      while pos > 0
        invariant 0 <= pos <= |tmp| && Holds(p + Reversed(tmp[pos..]))
      {
        pos := pos - 1;
        assert tmp[pos..][1..] == tmp[pos + 1..];
        AppendChar(tmp[pos], p + Reversed(tmp[pos + 1..]));
        assert p + Reversed(tmp[pos + 1..]) + [tmp[pos]] == p + Reversed(tmp[pos..]);
      }
      assert tmp[0..] == tmp;
    }
  }

  /** Collects the digits of a positive number, last digit first. */
  method DigitsBackwards(value: nat) returns (tmp: string)
    requires 0 < value < TIME_LIMIT
    ensures Reversed(tmp) == Digits(value)
  {
    tmp := "";
    var v := value;
    DecimalPlain(value);
    while v > 0 && |tmp| < 31
      invariant Digits(v) + Reversed(tmp) == Digits(value) && |tmp| + |Digits(v)| <= 20
      decreases v
    {
      ReversedAdd(tmp, Digit(v % 10));
      assert Digits(v) + Reversed(tmp) == Digits(v / 10) + ([Digit(v % 10)] + Reversed(tmp));
      tmp := tmp + [Digit(v % 10)];
      v := v / 10;
    }
    assert Digits(value) == Reversed(tmp);
  }

  function Reversed(s: string): (r: string)
    ensures |r| == |s|
  {
    if s == "" then "" else Reversed(s[1..]) + [s[0]]
  }

  lemma {:induction false} ReversedAdd(s: string, c: char)
    ensures Reversed(s + [c]) == [c] + Reversed(s)
  {
    if s == "" {
      assert ([c])[1..] == "";
    } else {
      ReversedAdd(s[1..], c);
      assert (s + [c])[1..] == s[1..] + [c];
    }
  }

  /** Prints the table into the blob. It succeeds exactly when everything printed leaves
      room to spare. */
  method Serialize(es: seq<Entry>, blob: array<char>) returns (ok: bool, len: nat)
    requires blob.Length > 0 && forall i :: 0 <= i < |es| ==> Fits(es[i])
    modifies blob
    ensures ok <==> Printed(es) == "" || |Printed(es)| + 1 < blob.Length
    ensures ok ==> len < blob.Length && blob[len] == NUL && blob[..len] == Printed(es)
  {
    hide Trunc, Line, Decimal;
    var w := new Writer(blob);
    var i := 0;
    while i < |es|
      invariant 0 <= i <= |es| && w.blob == blob && fresh(w) && w.Holds(Printed(es[..i]))
      invariant Printed(es[..i]) == "" || |Printed(es[..i])| + 1 < blob.Length
    {
      var e := es[i];
      ghost var p := Printed(es[..i]);
      PrintedNext(es, i);
      if e.key != "" {
        PrintLine(w, e, p);
        w.Room(p + Line(e));
        LineThere(e);
        if w.remaining <= 1 {
          PrintedMono(es, i + 1);
          return false, 0;
        }
      } else {
        NoLine(e);
      }
      i := i + 1;
    }
    assert es[..i] == es;
    w.Room(Printed(es));
    return true, w.out;
  }

  lemma LineThere(e: Entry)
    requires e.key != ""
    ensures Line(e) != ""
  {
  }

  lemma NoLine(e: Entry)
    requires e.key == ""
    ensures Line(e) == "" && forall p: string :: p + Line(e) == p
  {
  }

  method PrintLine(w: Writer, e: Entry, ghost p: string)
    requires w.Holds(p) && Fits(e) && e.key != ""
    modifies w, w.blob
    ensures w.Holds(p + Line(e))
  {
    hide Decimal, Trunc;
    w.AppendStr(e.key, p);
    w.AppendChar(TAB, p + e.key);
    ghost var q := p + e.key + [TAB];
    w.AppendU64(e.time, q);
    q := q + Decimal(e.time);
    w.AppendChar(TAB, q);
    q := q + [TAB];
    w.AppendChar(if e.persistent then '1' else '0', q);
    q := q + [if e.persistent then '1' else '0'];
    w.AppendChar(TAB, q);
    q := q + [TAB];
    w.AppendStr(e.value, q);
    q := q + e.value;
    w.AppendChar(LF, q);
    assert q + [LF] == p + Line(e);
  }

  lemma PrintedNext(es: seq<Entry>, i: nat)
    requires i < |es|
    ensures Printed(es[..i + 1]) == Printed(es[..i]) + Line(es[i])
  {
    assert es[..i + 1][..i] == es[..i];
  }

  lemma {:induction false} PrintedMono(es: seq<Entry>, i: nat)
    requires i <= |es|
    ensures |Printed(es[..i])| <= |Printed(es)|
    decreases |es| - i
  {
    if i == |es| {
      assert es[..i] == es;
    } else {
      PrintedNext(es, i);
      PrintedMono(es, i + 1);
    }
  }

  lemma {:induction false} PrintedSize(es: seq<Entry>)
    requires forall i :: 0 <= i < |es| ==> Fits(es[i])
    ensures |Printed(es)| <= 343 * |es|
  {
    if es != [] {
      PrintedSize(es[..|es| - 1]);
      DecimalPlain(es[|es| - 1].time);
    }
  }

  /** A full table never fills the blob. */
  lemma NeverFull(es: seq<Entry>)
    requires |es| <= MAX_ENTRIES && forall i :: 0 <= i < |es| ==> Fits(es[i])
    ensures |Printed(es)| + 1 < MAX_BLOB
  {
    PrintedSize(es);
  }

  // ---- parsing ------------------------------------------------------------------------

  /** The parser's place in a line: which field comes in, and the fields so far. */
  datatype State = State(stage: nat, key: string, time: string, flag: string, value: string)

  const START := State(0, "", "", "", "")

  /** Adds to a field of limited size; what does not fit is dropped. */
  function Add(s: string, c: char, n: nat): (r: string) { if |s| < n then s + [c] else s }

  function Feed(st: State, c: char): (r: State)
  {
    if st.stage == 0 then if c == TAB then st.(stage := 1) else st.(key := Add(st.key, c, MAX_KEY))
    else if st.stage == 1 then if c == TAB then st.(stage := 2) else st.(time := Add(st.time, c, 31))
    else if st.stage == 2 then if c == TAB then st.(stage := 3) else st.(flag := Add(st.flag, c, 7))
    else st.(value := Add(st.value, c, MAX_VALUE))
  }

  function Fold(st: State, s: string): (r: State)
    decreases |s|
  {
    if s == "" then st else Fold(Feed(st, s[0]), s[1..])
  }

  function EntryOf(st: State): (e: Entry)
  {
    Entry(st.key, st.value, ParseFrom(st.time, 0), st.flag != "" && st.flag[0] == '1', false)
  }

  predicate Ends(c: char) { c == LF || c == NUL }

  /** The line at the start of a text, and what follows its end. */
  function LineOf(b: string): (s: string) { if b == "" || Ends(b[0]) then "" else [b[0]] + LineOf(b[1..]) }

  function AfterLine(b: string): (s: string)
    ensures b != "" ==> |s| < |b|
  {
    if b == "" then "" else if Ends(b[0]) then b[1..] else AfterLine(b[1..])
  }

  function SkipLines(b: string): (s: string)
    ensures |s| <= |b|
  {
    if b != "" && b[0] == LF then SkipLines(b[1..]) else b
  }

  /** The entries a text yields, at most `room` of them. */
  function Entries(b: string, room: nat): (es: seq<Entry>)
    ensures |es| <= room
    decreases |b|
  {
    var s := SkipLines(b);
    if b == "" || room == 0 || s == "" || s[0] == NUL then []
    else
      var st := Fold(START, LineOf(s));
      if st.key == "" then Entries(AfterLine(s), room) else [EntryOf(st)] + Entries(AfterLine(s), room - 1)
  }

  /** Reads one line character by character. */
  method ReadLine(blob: seq<char>, start: nat) returns (st: State, pos: nat)
    requires start < |blob|
    ensures start < pos <= |blob| && st == Fold(START, LineOf(blob[start..])) && blob[pos..] == AfterLine(blob[start..])
  {
    st, pos := START, start;
    ghost var line, after := LineOf(blob[start..]), AfterLine(blob[start..]);
    while pos < |blob|
      invariant start <= pos <= |blob|
      invariant Fold(st, LineOf(blob[pos..])) == Fold(START, line) && AfterLine(blob[pos..]) == after
    {
      var c := blob[pos];
      assert blob[pos..][1..] == blob[pos + 1..];
      pos := pos + 1;
      if c == LF || c == NUL {
        return;
      }
      assert LineOf(blob[pos - 1..]) == [c] + LineOf(blob[pos..]);
      assert ([c] + LineOf(blob[pos..]))[1..] == LineOf(blob[pos..]);
      st := Feed(st, c);
    }
  }

  /** Adds the entries of a text to the table, as long as there is room. */
  method Deserialize(blob: seq<char>, es0: seq<Entry>) returns (es: seq<Entry>)
    requires |es0| <= MAX_ENTRIES
    ensures es == es0 + Entries(blob, MAX_ENTRIES - |es0|)
  {
    hide Entries, SkipLines, AfterLine, LineOf, Fold, EntryOf;
    es := es0;
    var pos := 0;
    ghost var all := es0 + Entries(blob, MAX_ENTRIES - |es0|);
    assert blob[0..] == blob;
    while pos < |blob| && |es| < MAX_ENTRIES
      invariant 0 <= pos <= |blob| && |es| <= MAX_ENTRIES && es + Entries(blob[pos..], MAX_ENTRIES - |es|) == all
      decreases |blob| - pos
    {
      ghost var from := pos;
      pos := SkipAt(blob, pos);
      EntriesStep(blob[from..], MAX_ENTRIES - |es|);
      if pos >= |blob| || blob[pos] == NUL {
        return;
      }
      ghost var before := es;
      var st, next := ReadLine(blob, pos);
      if st.key != "" {
        es := es + [EntryOf(st)];
        assert before + ([EntryOf(st)] + Entries(blob[next..], MAX_ENTRIES - |es|)) == es + Entries(blob[next..], MAX_ENTRIES - |es|);
      }
      pos := next;
    }
    EntriesEnd(blob[pos..], MAX_ENTRIES - |es|);
  }

  method SkipAt(blob: seq<char>, from: nat) returns (pos: nat)
    requires from <= |blob|
    ensures from <= pos <= |blob| && blob[pos..] == SkipLines(blob[from..])
  {
    pos := from;
    while pos < |blob| && blob[pos] == LF
      invariant from <= pos <= |blob| && SkipLines(blob[pos..]) == SkipLines(blob[from..])
    {
      assert blob[pos..][1..] == blob[pos + 1..];
      pos := pos + 1;
    }
  }

  lemma EntriesStep(b: string, room: nat)
    requires b != "" && room > 0
    ensures var s := SkipLines(b);
      if s == "" || s[0] == NUL then Entries(b, room) == []
      else
        var st := Fold(START, LineOf(s));
        Entries(b, room) == if st.key == "" then Entries(AfterLine(s), room) else [EntryOf(st)] + Entries(AfterLine(s), room - 1)
  {
  }

  lemma EntriesEnd(b: string, room: nat)
    requires b == "" || room == 0
    ensures Entries(b, room) == []
  {
  }

  // ---- round trip -----------------------------------------------------------------------

  /** What the format can carry. */
  ghost predicate Clean(e: Entry)
  {
    e.key != "" && Plain(e.key) && LF !in e.value && NUL !in e.value
  }

  function Cleared(es: seq<Entry>): (r: seq<Entry>)
  {
    seq(|es|, i requires 0 <= i < |es| => es[i].(dirty := false))
  }

  lemma {:induction false} FoldKey(st: State, s: string, rest: string)
    requires st.stage == 0 && TAB !in s && |st.key| + |s| <= MAX_KEY
    ensures Fold(st, s + [TAB] + rest) == Fold(st.(stage := 1, key := st.key + s), rest)
    decreases |s|
  {
    if s == "" {
      assert (s + [TAB] + rest)[1..] == rest;
      assert st.key + s == st.key;
    } else {
      assert (s + [TAB] + rest)[1..] == s[1..] + [TAB] + rest;
      FoldKey(st.(key := st.key + [s[0]]), s[1..], rest);
      assert st.key + [s[0]] + s[1..] == st.key + s;
    }
  }

  lemma {:induction false} FoldTime(st: State, s: string, rest: string)
    requires st.stage == 1 && TAB !in s && |st.time| + |s| <= 31
    ensures Fold(st, s + [TAB] + rest) == Fold(st.(stage := 2, time := st.time + s), rest)
    decreases |s|
  {
    if s == "" {
      assert (s + [TAB] + rest)[1..] == rest;
      assert st.time + s == st.time;
    } else {
      assert (s + [TAB] + rest)[1..] == s[1..] + [TAB] + rest;
      FoldTime(st.(time := st.time + [s[0]]), s[1..], rest);
      assert st.time + [s[0]] + s[1..] == st.time + s;
    }
  }

  lemma {:induction false} FoldValue(st: State, s: string)
    requires st.stage == 3 && |st.value| + |s| <= MAX_VALUE
    ensures Fold(st, s) == st.(value := st.value + s)
    decreases |s|
  {
    if s != "" {
      FoldValue(st.(value := st.value + [s[0]]), s[1..]);
      assert st.value + [s[0]] + s[1..] == st.value + s;
    } else {
      assert st.value + s == st.value;
    }
  }

  function Body(e: Entry): (s: string)
  {
    e.key + [TAB] + (Decimal(e.time) + [TAB] + ([if e.persistent then '1' else '0'] + [TAB] + e.value))
  }

  /** The state machine recovers every field of a printed line. */
  lemma BodyBack(e: Entry)
    requires Fits(e) && Clean(e)
    ensures EntryOf(Fold(START, Body(e))) == e.(dirty := false) && Fold(START, Body(e)).key == e.key
  {
    hide Decimal, ParseFrom, Fold;
    DecimalPlain(e.time);
    var flag := [if e.persistent then '1' else '0'];
    var r2 := flag + [TAB] + e.value;
    FoldKey(START, e.key, Decimal(e.time) + [TAB] + r2);
    assert START.key + e.key == e.key;
    var s1 := START.(stage := 1, key := e.key);
    FoldTime(s1, Decimal(e.time), r2);
    assert s1.time + Decimal(e.time) == Decimal(e.time);
    var s2 := s1.(stage := 2, time := Decimal(e.time));
    FoldFlag(s2, flag[0], e.value);
    FoldValue(s2.(stage := 3, flag := flag), e.value);
    assert s2.value + e.value == e.value;
    assert Body(e) == e.key + [TAB] + (Decimal(e.time) + [TAB] + r2);
    DecimalBack(e.time);
  }

  lemma FoldFlag(st: State, c: char, rest: string)
    requires st.stage == 2 && st.flag == "" && c != TAB
    ensures Fold(st, [c] + [TAB] + rest) == Fold(st.(stage := 3, flag := [c]), rest)
  {
    var s := [c] + [TAB] + rest;
    assert s[1..] == [TAB] + rest && s[1..][1..] == rest;
    assert Feed(st, c) == st.(flag := [c]);
  }

  lemma {:induction false} LineEnds(s: string, c: char, rest: string)
    requires LF !in s && NUL !in s && Ends(c)
    ensures LineOf(s + [c] + rest) == s && AfterLine(s + [c] + rest) == rest
    decreases |s|
  {
    if s != "" {
      assert (s + [c] + rest)[1..] == s[1..] + [c] + rest;
      LineEnds(s[1..], c, rest);
    } else {
      assert (s + [c] + rest)[1..] == rest;
    }
  }

  lemma BodyPlain(e: Entry)
    requires Fits(e) && Clean(e)
    ensures LF !in Body(e) && NUL !in Body(e) && Body(e) != "" && Line(e) == Body(e) + [LF] && Body(e)[0] != LF && Body(e)[0] != NUL
  {
    hide Decimal;
    DecimalPlain(e.time);
    assert Body(e)[0] == e.key[0];
  }

  /** The text printed from entry `i` on. */
  function Suffix(es: seq<Entry>, i: nat): (s: string)
    requires i <= |es|
    decreases |es| - i
  {
    if i == |es| then [NUL] else Line(es[i]) + Suffix(es, i + 1)
  }

  lemma {:induction false} SuffixPrinted(es: seq<Entry>, i: nat)
    requires i <= |es|
    ensures Printed(es[..i]) + Suffix(es, i) == Printed(es) + [NUL]
    decreases |es| - i
  {
    hide Line;
    if i == |es| {
      assert es[..i] == es;
    } else {
      PrintedNext(es, i);
      SuffixPrinted(es, i + 1);
      assert Printed(es[..i]) + Suffix(es, i) == Printed(es[..i]) + Line(es[i]) + Suffix(es, i + 1);
    }
  }

  lemma {:induction false} SuffixBack(es: seq<Entry>, i: nat)
    requires i <= |es| <= MAX_ENTRIES && forall j :: 0 <= j < |es| ==> Fits(es[j]) && Clean(es[j])
    ensures Entries(Suffix(es, i), MAX_ENTRIES - i) == Cleared(es)[i..]
    decreases |es| - i
  {
    hide Body, Fits, Clean, Fold, Feed, EntryOf, Line;
    if i < |es| {
      var e, rest := es[i], Suffix(es, i + 1);
      BodyPlain(e);
      LineEnds(Body(e), LF, rest);
      BodyBack(e);
      var s := Suffix(es, i);
      assert s == Body(e) + [LF] + rest && s[0] == Body(e)[0];
      KeyThere(e);
      SuffixBack(es, i + 1);
      assert Cleared(es)[i..] == [Cleared(es)[i]] + Cleared(es)[i + 1..];
    }
  }

  lemma KeyThere(e: Entry)
    requires Clean(e)
    ensures e.key != ""
  {
  }

  /** Every entry the parser yields is clean. */
  lemma {:induction false} ParsedClean(b: string, room: nat)
    ensures forall e :: e in Entries(b, room) ==> Clean(e) && !e.dirty
    decreases |b|
  {
    var s := SkipLines(b);
    if b == "" || room == 0 || s == "" || s[0] == NUL {
    } else {
      LineFree(s);
      FoldClean(START, LineOf(s));
      ParsedClean(AfterLine(s), room);
      if room > 0 { ParsedClean(AfterLine(s), room - 1); }
    }
  }

  /** And it fits the table. */
  lemma {:induction false} ParsedFits(b: string, room: nat)
    ensures forall e :: e in Entries(b, room) ==> Fits(e)
    decreases |b|
  {
    hide Fold;
    var s := SkipLines(b);
    if b == "" || room == 0 || s == "" || s[0] == NUL {
    } else {
      var st := Fold(START, LineOf(s));
      LineFree(s);
      FoldClean(START, LineOf(s));
      FoldBounded(START, LineOf(s));
      ParseBound(st.time, 0);
      ParsedFits(AfterLine(s), room);
      if room > 0 { ParsedFits(AfterLine(s), room - 1); }
    }
  }

  lemma {:induction false} FoldBounded(st: State, s: string)
    requires |st.key| <= MAX_KEY && |st.value| <= MAX_VALUE
    ensures |Fold(st, s).key| <= MAX_KEY && |Fold(st, s).value| <= MAX_VALUE
    decreases |s|
  {
    if s != "" { FoldBounded(Feed(st, s[0]), s[1..]); }
  }

  lemma {:induction false} ParseBound(s: string, v: nat)
    requires v < TIME_LIMIT
    ensures ParseFrom(s, v) < TIME_LIMIT
    decreases |s|
  {
    if s != "" && IsDigit(s[0]) {
      ParseBound(s[1..], (v * 10 + (s[0] as int - '0' as int)) % TIME_LIMIT);
    }
  }

  lemma {:induction false} LineFree(b: string)
    ensures LF !in LineOf(b) && NUL !in LineOf(b)
  {
    if b != "" && !Ends(b[0]) { LineFree(b[1..]); }
  }

  ghost predicate CleanState(st: State) { Plain(st.key) && LF !in st.value && NUL !in st.value }

  lemma {:induction false} FoldClean(st: State, s: string)
    requires CleanState(st) && LF !in s && NUL !in s
    ensures CleanState(Fold(st, s))
    decreases |s|
  {
    if s != "" { FoldClean(Feed(st, s[0]), s[1..]); }
  }

  /** The parser undoes the printer exactly for tables whose entries have a key without
      TAB and LF and a value without LF. */
  lemma RoundTrip(es: seq<Entry>)
    requires |es| <= MAX_ENTRIES && forall j :: 0 <= j < |es| ==> Fits(es[j])
    ensures Entries(Printed(es) + [NUL], MAX_ENTRIES) == Cleared(es)
      <==> AllClean(es)
  {
    hide Printed, Entries, Cleared, Clean, Fits;
    forall j | 0 <= j < |es|
      ensures Clean(es[j]) <==> es[j].key != "" && TAB !in es[j].key && LF !in es[j].key && LF !in es[j].value
    {
      CleanIs(es[j]);
    }
    if forall j :: 0 <= j < |es| ==> Clean(es[j]) {
      CleanBack(es);
    } else {
      var j :| 0 <= j < |es| && !Clean(es[j]);
      UncleanLost(es, j);
    }
  }

  lemma CleanIs(e: Entry)
    requires Fits(e)
    ensures Clean(e) <==> e.key != "" && TAB !in e.key && LF !in e.key && LF !in e.value
  {
  }

  lemma CleanBack(es: seq<Entry>)
    requires |es| <= MAX_ENTRIES && forall j :: 0 <= j < |es| ==> Fits(es[j]) && Clean(es[j])
    ensures Entries(Printed(es) + [NUL], MAX_ENTRIES) == Cleared(es)
  {
    hide Entries, Suffix, Fits, Clean, Line;
    SuffixPrinted(es, 0);
    SuffixBack(es, 0);
    assert es[..0] == [] && Printed(es[..0]) + Suffix(es, 0) == Suffix(es, 0);
    assert Cleared(es)[0..] == Cleared(es);
  }

  lemma UncleanLost(es: seq<Entry>, j: nat)
    requires j < |es| && !Clean(es[j])
    ensures Entries(Printed(es) + [NUL], MAX_ENTRIES) != Cleared(es)
  {
    hide Entries, Printed;
    var parsed := Entries(Printed(es) + [NUL], MAX_ENTRIES);
    ParsedClean(Printed(es) + [NUL], MAX_ENTRIES);
    assert |parsed| > j ==> parsed[j] in parsed;
    assert Cleared(es)[j] == es[j].(dirty := false);
  }

  // ---- the table --------------------------------------------------------------------------

  /** The value found under a key. */
  function Lookup(es: seq<Entry>, key: string): (v: Option<string>)
  {
    if es == [] then None else if es[0].key == key then Some(es[0].value) else Lookup(es[1..], key)
  }

  class Manager {
    var entries: seq<Entry>
    var snapshot: seq<Entry>
    var file: Option<string>

    ghost predicate Valid()
      reads this
    {
      && |entries| <= MAX_ENTRIES && |snapshot| <= MAX_ENTRIES
      && (forall i :: 0 <= i < |entries| ==> Fits(entries[i]))
      && (forall i :: 0 <= i < |snapshot| ==> Fits(snapshot[i]))
    }

    constructor ()
      ensures Valid() && entries == []
    {
      entries, snapshot, file := [], [], None;
    }

    /** The place of the first entry with the key, or the table's length. */
    method Find(key: string) returns (i: nat)
      ensures i <= |entries| && (i < |entries| ==> entries[i].key == key)
      ensures forall j :: 0 <= j < i ==> entries[j].key != key
    {
      i := 0;
      while i < |entries| && entries[i].key != key
        invariant 0 <= i <= |entries| && forall j :: 0 <= j < i ==> entries[j].key != key
      {
        i := i + 1;
      }
    }

    /** Sets a value. A key that fits is found again under its value, and other keys are
        not affected. A longer key is stored cut off and never found, so each update with
        it uses up one more entry; under the cut-off key the first value stays. */
    method Update(key: string, value: string, now: nat) returns (ok: bool)
      requires Valid() && NUL !in key && NUL !in value && now < TIME_LIMIT
      modifies this`entries
      ensures Valid()
      ensures ok <==> Lookup(old(entries), key).Some? || |old(entries)| < MAX_ENTRIES
      ensures !ok ==> entries == old(entries)
      ensures ok && |key| <= MAX_KEY ==> Lookup(entries, key) == Some(Trunc(value, MAX_VALUE))
      ensures |key| > MAX_KEY ==> Lookup(entries, key) == None
      ensures ok && |key| > MAX_KEY ==>
        var cut := Trunc(key, MAX_KEY);
        && |entries| == |old(entries)| + 1
        && Lookup(entries, cut) == if Lookup(old(entries), cut).Some? then Lookup(old(entries), cut) else Some(Trunc(value, MAX_VALUE))
      ensures ok && |key| <= MAX_KEY ==> |entries| == |old(entries)| + if Lookup(old(entries), key).Some? then 0 else 1
      ensures forall k :: k != Trunc(key, MAX_KEY) ==> Lookup(entries, k) == Lookup(old(entries), k)
    {
      var i := Find(key);
      FoundAt(entries, key, i);
      if i == |entries| {
        if |entries| >= MAX_ENTRIES {
          return false;
        }
        var e := Entry(Trunc(key, MAX_KEY), Trunc(value, MAX_VALUE), now, true, true);
        TruncFits(key, value);
        forall k { LookupAdd(entries, e, k); }
        entries := entries + [e];
      } else {
        var e := entries[i].(value := Trunc(value, MAX_VALUE), time := now, dirty := true);
        TruncFits(key, value);
        forall k { LookupSet(entries, i, e, k); }
        entries := entries[i := e];
      }
      if |key| > MAX_KEY { LongKey(entries, key); }
      ok := true;
    }

    /** Prints the table to storage; `diskOk` says whether the write succeeds. */
    method Save(diskOk: bool)
      requires Valid()
      modifies this
      ensures Valid() && entries == Cleared(old(entries)) && snapshot == entries
      ensures file == if diskOk then Some(Printed(old(entries)) + [NUL]) else old(file)
    {
      hide Printed, Cleared;
      ghost var before := entries;
      TakeSnapshot();
      NeverFull(entries);
      PrintedCleared(before);
      var blob := new char[MAX_BLOB];
      var ok, len := Serialize(entries, blob);
      if ok && diskOk {
        assert blob[..len + 1] == blob[..len] + [NUL];
        file := Some(blob[..len + 1]);
      }
    }

    method TakeSnapshot()
      requires Valid()
      modifies this`entries, this`snapshot
      ensures Valid() && entries == Cleared(old(entries)) && snapshot == entries
    {
      hide Fits;
      snapshot := [];
      ghost var before := entries;
      var i := 0;
      while i < |entries|
        invariant 0 <= i <= |entries| == |before| && |snapshot| == i
        invariant forall j :: 0 <= j < i ==> snapshot[j] == entries[j] == before[j].(dirty := false)
        invariant forall j :: i <= j < |before| ==> entries[j] == before[j]
      {
        snapshot := snapshot + [entries[i].(dirty := false)];
        entries := entries[i := entries[i].(dirty := false)];
        i := i + 1;
      }
      ClearedFits(before);
    }

    /** Rebuilds the table from storage, or from the snapshot. */
    method Load()
      requires Valid()
      modifies this`entries
      ensures Valid()
      ensures entries == if file.Some? && file.value != "" then Entries(file.value, MAX_ENTRIES) else snapshot
    {
      hide Fits, Entries;
      entries := [];
      if file.Some? && file.value != "" {
        ParsedFits(file.value, MAX_ENTRIES);
        entries := Deserialize(file.value, entries);
        assert [] + Entries(file.value, MAX_ENTRIES) == entries;
      } else {
        var i := 0;
        while i < |snapshot| && |entries| < MAX_ENTRIES
          invariant 0 <= i <= |snapshot| && entries == snapshot[..i]
        {
          entries := entries + [snapshot[i]];
          i := i + 1;
        }
      }
    }

    /** Saving and loading again. After a successful write the table comes back, dirty
        marks cleared, exactly when the format can carry all its entries. After a failed
        one an older file, if there is one, brings its own entries back; without one the
        snapshot restores the table whatever it holds. */
    method SaveAndLoad(diskOk: bool)
      requires Valid()
      modifies this
      ensures Valid()
      ensures diskOk ==> (entries == Cleared(old(entries)) <==> AllClean(old(entries)))
      ensures !diskOk && old(file).Some? && old(file).value != "" ==> entries == Entries(old(file).value, MAX_ENTRIES)
      ensures !diskOk && !(old(file).Some? && old(file).value != "") ==> entries == Cleared(old(entries))
    {
      hide Printed, Entries, Cleared, Fits;
      ghost var before := entries;
      RoundTrip(before);
      Save(diskOk);
      Load();
    }
  }

  /** Every entry survives printing and parsing. */
  predicate AllClean(es: seq<Entry>)
  {
    forall j :: 0 <= j < |es| ==> es[j].key != "" && TAB !in es[j].key && LF !in es[j].key && LF !in es[j].value
  }

  lemma ClearedFits(es: seq<Entry>)
    requires forall i :: 0 <= i < |es| ==> Fits(es[i])
    ensures forall i :: 0 <= i < |es| ==> Fits(es[i].(dirty := false))
  {
  }

  lemma TruncFits(key: string, value: string)
    requires NUL !in key && NUL !in value
    ensures NUL !in Trunc(key, MAX_KEY) && NUL !in Trunc(value, MAX_VALUE)
    ensures |key| <= MAX_KEY ==> Trunc(key, MAX_KEY) == key
  {
  }

  lemma {:induction false} FoundAt(es: seq<Entry>, key: string, i: nat)
    requires i <= |es| && (i < |es| ==> es[i].key == key) && forall j :: 0 <= j < i ==> es[j].key != key
    ensures Lookup(es, key) == if i < |es| then Some(es[i].value) else None
  {
    if i > 0 { FoundAt(es[1..], key, i - 1); }
  }

  lemma {:induction false} LookupAdd(es: seq<Entry>, e: Entry, k: string)
    ensures Lookup(es + [e], k) == if Lookup(es, k).Some? then Lookup(es, k) else if e.key == k then Some(e.value) else None
  {
    if es == [] {
      assert [e][1..] == [];
    } else {
      LookupAdd(es[1..], e, k);
      assert (es + [e])[1..] == es[1..] + [e];
    }
  }

  lemma {:induction false} LookupSet(es: seq<Entry>, i: nat, e: Entry, k: string)
    requires i < |es| && e.key == es[i].key && forall j :: 0 <= j < i ==> es[j].key != e.key
    ensures Lookup(es[i := e], k) == if k == e.key then Some(e.value) else Lookup(es, k)
  {
    if i > 0 {
      LookupSet(es[1..], i - 1, e, k);
      assert es[i := e][1..] == es[1..][i - 1 := e];
    } else {
      assert es[i := e][1..] == es[1..];
    }
  }

  lemma {:induction false} LongKey(es: seq<Entry>, key: string)
    requires |key| > MAX_KEY && forall i :: 0 <= i < |es| ==> Fits(es[i])
    ensures Lookup(es, key) == None
  {
    if es != [] { LongKey(es[1..], key); }
  }

  lemma {:induction false} PrintedCleared(es: seq<Entry>)
    ensures Printed(Cleared(es)) == Printed(es)
  {
    hide Decimal;
    if es != [] {
      PrintedCleared(es[..|es| - 1]);
      assert Cleared(es)[..|es| - 1] == Cleared(es[..|es| - 1]);
    }
  }
}
