/** CSS selector matching and the cascade: matching walks up the ancestors of an
    element, and an in-place fold keeps the winning declaration of each property. */
module Cascade {

  // ---- selectors --------------------------------------------------------------------

  datatype AttrOp = Present | Equals | HasWord | Dash | Prefix | Suffix | Contains | Unknown

  datatype AttrSelector = AttrSelector(name: string, op: AttrOp, value: string)

  datatype Pseudo = Pseudo(name: string, arg: string, element: bool)

  datatype Simple = Simple(tag: string, id: string, classes: seq<string>, attrs: seq<AttrSelector>, pseudos: seq<Pseudo>)

  datatype Combinator = Descendant | Child

  /** One part of a selector with the combinator that joins it to the part before. */
  datatype Part = Part(combinator: Combinator, simple: Simple)

  /** What matching reads of a node: lower-cased id and class words, attributes and
      the words of each, and the pseudo-classes it satisfies. */
  datatype Node = Node(element: bool, tag: string, id: string, classes: set<string>,
                       attrs: map<string, string>, words: map<string, set<string>>, pseudos: set<Pseudo>)

  predicate HasPrefix(s: string, p: string) { p <= s }

  predicate HasSuffix(s: string, p: string) { |p| <= |s| && s[|s| - |p|..] == p }

  predicate Includes(s: string, p: string) { exists i :: 0 <= i <= |s| && HasPrefix(s[i..], p) }

  predicate MatchAttr(n: Node, a: AttrSelector)
  {
    a.name in n.attrs &&
    var v := n.attrs[a.name];
    match a.op
    case Present => true
    case Equals => v == a.value
    case HasWord => a.name in n.words && a.value in n.words[a.name]
    case Dash => v == a.value || HasPrefix(v, a.value + "-")
    case Prefix => HasPrefix(v, a.value)
    case Suffix => HasSuffix(v, a.value)
    case Contains => Includes(v, a.value)
    case Unknown => false
  }

  predicate MatchSimple(n: Node, s: Simple)
  {
    && n.element
    && (s.tag == "" || s.tag == "*" || s.tag == n.tag)
    && (s.id == "" || n.id == s.id)
    && (forall i :: 0 <= i < |s.classes| ==> s.classes[i] in n.classes)
    && (forall i :: 0 <= i < |s.attrs| ==> MatchAttr(n, s.attrs[i]))
    && (forall i :: 0 <= i < |s.pseudos| ==> s.pseudos[i] in n.pseudos)
  }

  // ---- what a simple selector accepts ------------------------------------------------

  const ANY := Simple("", "", [], [], [])

  /** Without conditions it accepts exactly the elements. */
  lemma AnyElement(n: Node)
    ensures MatchSimple(n, ANY) <==> n.element
    ensures MatchSimple(n, ANY.(tag := "*")) <==> n.element
  {
  }

  /** Each condition added is one more that has to hold, and no other changes: a name, an
      id, a class word, an attribute, a pseudo-class. */
  lemma OneMore(n: Node, s: Simple, tag: string, id: string, c: string, a: AttrSelector, p: Pseudo)
    ensures s.tag == "" && tag != "" && tag != "*" ==> (MatchSimple(n, s.(tag := tag)) <==> MatchSimple(n, s) && n.tag == tag)
    ensures s.id == "" && id != "" ==> (MatchSimple(n, s.(id := id)) <==> MatchSimple(n, s) && n.id == id)
    ensures MatchSimple(n, s.(classes := s.classes + [c])) <==> MatchSimple(n, s) && c in n.classes
    ensures MatchSimple(n, s.(attrs := s.attrs + [a])) <==> MatchSimple(n, s) && MatchAttr(n, a)
    ensures MatchSimple(n, s.(pseudos := s.pseudos + [p])) <==> MatchSimple(n, s) && p in n.pseudos
  {
    hide MatchAttr;
    OneMoreClass(n, s, c);
    OneMoreAttr(n, s, a);
    OneMorePseudo(n, s, p);
  }

  lemma OneMoreClass(n: Node, s: Simple, c: string)
    ensures MatchSimple(n, s.(classes := s.classes + [c])) <==> MatchSimple(n, s) && c in n.classes
  {
    hide MatchAttr;
    var t := s.(classes := s.classes + [c]);
    assert t.classes[|s.classes|] == c && forall i :: 0 <= i < |s.classes| ==> t.classes[i] == s.classes[i];
  }

  lemma OneMoreAttr(n: Node, s: Simple, a: AttrSelector)
    ensures MatchSimple(n, s.(attrs := s.attrs + [a])) <==> MatchSimple(n, s) && MatchAttr(n, a)
  {
    hide MatchAttr;
    var t := s.(attrs := s.attrs + [a]);
    assert t.attrs[|s.attrs|] == a && forall i :: 0 <= i < |s.attrs| ==> t.attrs[i] == s.attrs[i];
  }

  lemma OneMorePseudo(n: Node, s: Simple, p: Pseudo)
    ensures MatchSimple(n, s.(pseudos := s.pseudos + [p])) <==> MatchSimple(n, s) && p in n.pseudos
  {
    hide MatchAttr;
    var t := s.(pseudos := s.pseudos + [p]);
    assert t.pseudos[|s.pseudos|] == p && forall i :: 0 <= i < |s.pseudos| ==> t.pseudos[i] == s.pseudos[i];
  }

  /** An element whose one attribute `name` has the value `v`. */
  function Having(name: string, v: string, ws: set<string>): Node
  {
    Node(true, "", "", {}, map[name := v], map[name := ws], {})
  }

  /** What the operators accept, for any value `x` and any text around it. */
  lemma Operators(k: string, x: string, u: string, w: string, ws: set<string>, v: string)
    ensures MatchAttr(Having(k, v, ws), AttrSelector(k, Present, x))
    ensures MatchAttr(Having(k, v, ws), AttrSelector(k, Equals, x)) <==> v == x
    ensures MatchAttr(Having(k, v, ws), AttrSelector(k, HasWord, x)) <==> x in ws
    ensures MatchAttr(Having(k, x + w, ws), AttrSelector(k, Prefix, x))
    ensures MatchAttr(Having(k, u + x, ws), AttrSelector(k, Suffix, x))
    ensures MatchAttr(Having(k, u + x + w, ws), AttrSelector(k, Contains, x))
    ensures MatchAttr(Having(k, x, ws), AttrSelector(k, Dash, x)) && MatchAttr(Having(k, x + "-" + w, ws), AttrSelector(k, Dash, x))
    ensures !MatchAttr(Having(k, v, ws), AttrSelector(k, Unknown, x))
    ensures !MatchAttr(Node(true, "", "", {}, map[], map[], {}), AttrSelector(k, Present, x))
  {
    assert HasPrefix(x + "-" + w, x + "-");
    assert (u + x)[|u + x| - |x|..] == x;
    var t := u + x + w;
    assert t[|u|..] == x + w && HasPrefix(t[|u|..], x);
  }

  /** And nothing else: what they accept is of that form. */
  lemma OperatorsOnly(n: Node, a: AttrSelector)
    requires MatchAttr(n, a)
    ensures a.name in n.attrs
    ensures a.op.Prefix? ==> exists w :: n.attrs[a.name] == a.value + w
    ensures a.op.Suffix? ==> exists u :: n.attrs[a.name] == u + a.value
    ensures a.op.Contains? ==> exists u, w :: n.attrs[a.name] == u + a.value + w
    ensures a.op.Dash? ==> n.attrs[a.name] == a.value || exists w :: n.attrs[a.name] == a.value + "-" + w
  {
    var v, x := n.attrs[a.name], a.value;
    match a.op
    case Prefix => assert v == x + v[|x|..];
    case Suffix => assert v == v[..|v| - |x|] + x;
    case Contains =>
      var i :| 0 <= i <= |v| && HasPrefix(v[i..], x);
      assert v == v[..i] + x + v[i + |x|..];
    case Dash => if v != x { assert v == x + "-" + v[|x| + 1..]; }
    case _ =>
  }

  /** A node followed by its ancestors, the root last. */
  type Chain = seq<Node>

  /** Whether the parts up to `idx` match with part `idx` at ancestor `at`. */
  function MatchFrom(chain: Chain, at: nat, parts: seq<Part>, idx: nat): (b: bool)
    requires idx < |parts|
    decreases idx, 1, 0
  {
    if at >= |chain| || !MatchSimple(chain[at], parts[idx].simple) then false
    else if idx == 0 then true
    else if parts[idx].combinator.Child? then MatchFrom(chain, at + 1, parts, idx - 1)
    else MatchAbove(chain, at + 1, parts, idx - 1)
  }

  /** Whether some ancestor from `at` upwards matches part `idx` and what is before. */
  function MatchAbove(chain: Chain, at: nat, parts: seq<Part>, idx: nat): (b: bool)
    requires idx < |parts|
    decreases idx + 1, 0, |chain| - at
  {
    at < |chain| &&
    ((chain[at].element && MatchFrom(chain, at, parts, idx)) || MatchAbove(chain, at + 1, parts, idx))
  }

  predicate Matches(chain: Chain, parts: seq<Part>)
  {
    chain != [] && chain[0].element && parts != [] && MatchFrom(chain, 0, parts, |parts| - 1)
  }

  /** A placement of parts `0..idx` on ancestors: part `idx` at `at`, each part
      matching its place, a child combinator reaching the very next ancestor and a
      descendant combinator any further one. */
  ghost predicate Places(chain: Chain, at: nat, parts: seq<Part>, idx: nat, pos: seq<nat>)
    requires idx < |parts|
  {
    && |pos| == idx + 1 && pos[idx] == at
    && (forall i :: 0 <= i <= idx ==> pos[i] < |chain| && MatchSimple(chain[pos[i]], parts[i].simple))
    && (forall i :: 0 < i <= idx ==>
          if parts[i].combinator.Child? then pos[i - 1] == pos[i] + 1 else pos[i - 1] > pos[i])
  }

  /** Whatever is found above has a place. */
  lemma {:induction false} AboveFinds(chain: Chain, at: nat, parts: seq<Part>, idx: nat) returns (k: nat)
    requires idx < |parts| && MatchAbove(chain, at, parts, idx)
    ensures at <= k < |chain| && MatchFrom(chain, k, parts, idx)
    decreases |chain| - at
  {
    if chain[at].element && MatchFrom(chain, at, parts, idx) {
      k := at;
    } else {
      k := AboveFinds(chain, at + 1, parts, idx);
    }
  }

  lemma {:induction false} FoundAbove(chain: Chain, at: nat, parts: seq<Part>, idx: nat, k: nat)
    requires idx < |parts| && at <= k < |chain| && MatchFrom(chain, k, parts, idx)
    ensures MatchAbove(chain, at, parts, idx)
    decreases k - at
  {
    if at < k { FoundAbove(chain, at + 1, parts, idx, k); }
  }

  /** A match comes with a placement. */
  lemma {:induction false} MatchPlaces(chain: Chain, at: nat, parts: seq<Part>, idx: nat) returns (pos: seq<nat>)
    requires idx < |parts| && MatchFrom(chain, at, parts, idx)
    ensures Places(chain, at, parts, idx, pos)
    decreases idx
  {
    hide MatchSimple;
    if idx == 0 {
      pos := [at];
    } else {
      var k := at + 1;
      if parts[idx].combinator.Descendant? {
        k := AboveFinds(chain, at + 1, parts, idx - 1);
      }
      var before := MatchPlaces(chain, k, parts, idx - 1);
      pos := before + [at];
    }
  }

  /** A placement makes a match. */
  lemma {:induction false} PlacesMatch(chain: Chain, at: nat, parts: seq<Part>, idx: nat, pos: seq<nat>)
    requires idx < |parts| && Places(chain, at, parts, idx, pos)
    ensures MatchFrom(chain, at, parts, idx)
    decreases idx
  {
    hide MatchSimple;
    if idx > 0 {
      PlacesMatch(chain, pos[idx - 1], parts, idx - 1, pos[..idx]);
      if parts[idx].combinator.Descendant? {
        FoundAbove(chain, at + 1, parts, idx - 1, pos[idx - 1]);
      }
    }
  }

  /** A placement of a whole selector on an element and its ancestors. */
  ghost predicate Placed(chain: Chain, parts: seq<Part>, pos: seq<nat>)
    requires parts != []
  {
    Places(chain, 0, parts, |parts| - 1, pos)
  }

  /** Matching holds exactly when some chain of ancestors satisfies every part and
      every combinator. */
  lemma MatchesIffPlaced(chain: Chain, parts: seq<Part>)
    requires chain != [] && parts != []
    ensures Matches(chain, parts) <==> exists pos :: Placed(chain, parts, pos)
  {
    hide MatchFrom, Places;
    var idx := |parts| - 1;
    if Matches(chain, parts) {
      var pos := MatchPlaces(chain, 0, parts, idx);
      assert Placed(chain, parts, pos);
    }
    if pos :| Placed(chain, parts, pos) {
      PlacesMatch(chain, 0, parts, idx, pos);
      PlacedElement(chain, parts, pos);
    }
  }

  lemma PlacedElement(chain: Chain, parts: seq<Part>, pos: seq<nat>)
    requires chain != [] && parts != [] && Places(chain, 0, parts, |parts| - 1, pos)
    ensures chain[0].element
  {
    assert MatchSimple(chain[pos[|parts| - 1]], parts[|parts| - 1].simple);
  }

  // ---- specificity --------------------------------------------------------------------

  datatype Spec = Spec(a: nat, b: nat, c: nat)

  const NOTHING := Spec(0, 0, 0)

  /** -1, 0 or 1, by the most significant component that differs. */
  function CompareSpec(x: Spec, y: Spec): (r: int)
  {
    if x.a != y.a then (if x.a > y.a then 1 else -1)
    else if x.b != y.b then (if x.b > y.b then 1 else -1)
    else if x.c != y.c then (if x.c > y.c then 1 else -1)
    else 0
  }

  /** A specificity as a number with three places. */
  function Number(x: Spec, base: nat): (n: nat) { x.a * (base * base) + x.b * base + x.c }

  /** Specificities compare as such numbers do: one id outweighs any number of classes, one
      class any number of tags. */
  lemma SpecOrder(x: Spec, y: Spec, base: nat)
    requires x.b < base && x.c < base && y.b < base && y.c < base
    ensures CompareSpec(x, y) > 0 <==> Number(x, base) > Number(y, base)
    ensures CompareSpec(x, y) == 0 <==> x == y
    ensures CompareSpec(x, y) < 0 <==> Number(x, base) < Number(y, base)
  {
    hide Number;
    if x.a != y.a {
      if x.a > y.a { Outweighs(x, y, base); } else { Outweighs(y, x, base); }
    } else if x.b != y.b {
      if x.b > y.b { Outweighs(x, y, base); } else { Outweighs(y, x, base); }
    } else if x.c > y.c {
      Outweighs(x, y, base);
    } else if y.c > x.c {
      Outweighs(y, x, base);
    }
  }

  lemma Outweighs(x: Spec, y: Spec, base: nat)
    requires x.b < base && x.c < base && y.b < base && y.c < base
    requires x.a > y.a || (x.a == y.a && (x.b > y.b || (x.b == y.b && x.c > y.c)))
    ensures Number(x, base) > Number(y, base)
  {
    if x.a > y.a {
      Scale(base * base, y.a + 1, x.a);
      Scale(base, y.b, base - 1);
      assert (y.a + 1) * (base * base) == y.a * (base * base) + base * base;
      assert (base - 1) * base == base * base - base;
    } else if x.b > y.b {
      Scale(base, y.b + 1, x.b);
      assert (y.b + 1) * base == y.b * base + base;
    }
  }

  lemma Scale(k: nat, a: nat, b: nat)
    requires a <= b
    ensures a * k <= b * k
  {
  }

  // ---- the cascade ----------------------------------------------------------------------

  /** A declaration as it enters the cascade. */
  datatype Cand = Cand(prop: string, value: string, important: bool, spec: Spec, order: int)

  /** `x` does not beat `y` by (important, specificity, order). */
  predicate Leq(x: Cand, y: Cand)
  {
    if x.important != y.important then y.important
    else if CompareSpec(x.spec, y.spec) != 0 then CompareSpec(x.spec, y.spec) < 0
    else x.order <= y.order
  }

  /** The order of the cascade: importance first, then specificity, then place. */
  lemma LeqOrder(x: Cand, y: Cand, base: nat)
    requires x.spec.b < base && x.spec.c < base && y.spec.b < base && y.spec.c < base
    ensures Leq(x, y) <==>
      || (!x.important && y.important)
      || (x.important == y.important && Number(x.spec, base) < Number(y.spec, base))
      || (x.important == y.important && x.spec == y.spec && x.order <= y.order)
  {
    hide CompareSpec, Number;
    SpecOrder(x.spec, y.spec, base);
  }

  lemma LeqTotal(x: Cand, y: Cand, z: Cand)
    ensures Leq(x, x) && (Leq(x, y) || Leq(y, x)) && (Leq(x, y) && Leq(y, z) ==> Leq(x, z))
  {
  }

  type Computed = map<string, Cand>

  /** Keeps the better of the current value and the candidate; ties go to the later. */
  function ApplyDeclaration(dst: Computed, c: Cand): (r: Computed)
  {
    if c.prop == "" then dst
    else if c.prop !in dst then dst[c.prop := c]
    else
      var cur := dst[c.prop];
      if cur.important != c.important then (if c.important then dst[c.prop := c] else dst)
      else
        var cmp := CompareSpec(c.spec, cur.spec);
        if cmp > 0 || (cmp == 0 && c.order >= cur.order) then dst[c.prop := c] else dst
  }

  function ApplyAll(cs: seq<Cand>): (r: Computed)
  {
    if cs == [] then map[] else ApplyDeclaration(ApplyAll(cs[..|cs| - 1]), cs[|cs| - 1])
  }

  /** Candidate `i` wins its property: none is greater, and later ones are less. */
  ghost predicate Wins(cs: seq<Cand>, i: nat)
    requires i < |cs|
  {
    forall j :: 0 <= j < |cs| && cs[j].prop == cs[i].prop ==> Leq(cs[j], cs[i]) && (j > i ==> !Leq(cs[i], cs[j]))
  }

  /** Property `p` of `r` is declared in `cs`, and its value wins there. */
  ghost predicate Decides(cs: seq<Cand>, r: Computed, p: string)
  {
    && (p in r <==> p != "" && exists i :: 0 <= i < |cs| && cs[i].prop == p)
    && (p in r ==> exists i :: 0 <= i < |cs| && cs[i].prop == p && Wins(cs, i) && r[p] == cs[i])
  }

  /** The fold holds, for every property that is declared, the winning declaration. */
  lemma {:induction false} FoldWins(cs: seq<Cand>, p: string)
    ensures Decides(cs, ApplyAll(cs), p)
  {
    hide Wins, ApplyDeclaration;
    if cs != [] {
      var n := |cs| - 1;
      FoldWins(cs[..n], p);
      hide Decides;
      if p != cs[n].prop || p == "" {
        FoldOther(cs, ApplyAll(cs[..n]), p);
      } else if p in ApplyAll(cs[..n]) {
        FoldAgain(cs, ApplyAll(cs[..n]), p);
      } else {
        FoldFirst(cs, ApplyAll(cs[..n]), p);
      }
    }
  }

  lemma FoldOther(cs: seq<Cand>, r: Computed, p: string)
    requires cs != [] && (p != cs[|cs| - 1].prop || p == "") && Decides(cs[..|cs| - 1], r, p)
    ensures Decides(cs, ApplyDeclaration(r, cs[|cs| - 1]), p)
  {
    hide Leq, ApplyDeclaration;
    var n := |cs| - 1;
    ApplyKeeps(r, cs[n], p);
    assert forall j :: 0 <= j < n ==> cs[j] == cs[..n][j];
    if p in r {
      var i :| 0 <= i < n && cs[..n][i].prop == p && Wins(cs[..n], i) && r[p] == cs[..n][i];
      assert Wins(cs, i);
    }
  }

  lemma FoldFirst(cs: seq<Cand>, r: Computed, p: string)
    requires cs != [] && p == cs[|cs| - 1].prop && p != "" && p !in r && Decides(cs[..|cs| - 1], r, p)
    ensures Decides(cs, ApplyDeclaration(r, cs[|cs| - 1]), p)
  {
    hide Leq;
    var n := |cs| - 1;
    LeqTotal(cs[n], cs[n], cs[n]);
    assert forall j :: 0 <= j < n ==> cs[j] == cs[..n][j];
    assert Wins(cs, n);
  }

  lemma FoldAgain(cs: seq<Cand>, r: Computed, p: string)
    requires cs != [] && p == cs[|cs| - 1].prop && p != "" && p in r && Decides(cs[..|cs| - 1], r, p)
    ensures Decides(cs, ApplyDeclaration(r, cs[|cs| - 1]), p)
  {
    hide Leq, ApplyDeclaration, Wins;
    var n := |cs| - 1;
    var i :| 0 <= i < n && cs[..n][i].prop == p && Wins(cs[..n], i) && r[p] == cs[..n][i];
    Replacement(r, cs[n]);
    if Leq(cs[i], cs[n]) { NewWinner(cs, i); } else { OldWinner(cs, i); }
  }

  lemma ApplyKeeps(dst: Computed, c: Cand, p: string)
    requires p != c.prop || p == ""
    ensures p in ApplyDeclaration(dst, c) <==> p in dst
    ensures p in dst ==> p in ApplyDeclaration(dst, c) && ApplyDeclaration(dst, c)[p] == dst[p]
  {
  }

  lemma Replacement(dst: Computed, c: Cand)
    requires c.prop != "" && c.prop in dst
    ensures var r := ApplyDeclaration(dst, c);
      c.prop in r && r[c.prop] == if Leq(dst[c.prop], c) then c else dst[c.prop]
  {
  }

  lemma NewWinner(cs: seq<Cand>, i: nat)
    requires cs != [] && i < |cs| - 1 && cs[i].prop == cs[|cs| - 1].prop
    requires Wins(cs[..|cs| - 1], i) && Leq(cs[i], cs[|cs| - 1])
    ensures Wins(cs, |cs| - 1)
  {
    hide Leq;
    var n := |cs| - 1;
    forall j | 0 <= j < |cs| && cs[j].prop == cs[n].prop ensures Leq(cs[j], cs[n]) {
      if j < n { assert cs[..n][j] == cs[j]; }
      LeqTotal(cs[j], cs[i], cs[n]);
      LeqTotal(cs[n], cs[n], cs[n]);
    }
  }

  lemma OldWinner(cs: seq<Cand>, i: nat)
    requires cs != [] && i < |cs| - 1 && cs[i].prop == cs[|cs| - 1].prop
    requires Wins(cs[..|cs| - 1], i) && !Leq(cs[i], cs[|cs| - 1])
    ensures Wins(cs, i)
  {
    hide Leq;
    var n := |cs| - 1;
    LeqTotal(cs[n], cs[i], cs[i]);
    assert forall j :: 0 <= j < n ==> cs[..n][j] == cs[j];
  }

  // ---- styling elements ------------------------------------------------------------

  datatype Selector = Selector(parts: seq<Part>, spec: Spec)

  datatype Decl = Decl(prop: string, value: string, important: bool)

  /** A style rule; `active` says that its media condition holds. */
  datatype Rule = Rule(selectors: seq<Selector>, decls: seq<Decl>, active: bool, order: int)

  const INLINE_SPEC := Spec(0x10_0000, 0, 0)
  const INLINE_ORDER := 0x4000_0000

  ghost predicate RuleMatches(chain: Chain, r: Rule)
  {
    exists i :: 0 <= i < |r.selectors| && Matches(chain, r.selectors[i].parts)
  }

  /** `best` is the greatest specificity among the first `n` selectors that match. */
  ghost predicate IsBest(chain: Chain, sels: seq<Selector>, n: nat, best: Spec)
    requires n <= |sels|
  {
    && (forall i :: 0 <= i < n && Matches(chain, sels[i].parts) ==> CompareSpec(sels[i].spec, best) <= 0)
    && (best == NOTHING || exists i :: 0 <= i < n && Matches(chain, sels[i].parts) && sels[i].spec == best)
  }

  lemma BestUnique(chain: Chain, sels: seq<Selector>, x: Spec, y: Spec)
    requires IsBest(chain, sels, |sels|, x) && IsBest(chain, sels, |sels|, y)
    ensures x == y
  {
    hide Matches;
    assert CompareSpec(NOTHING, x) <= 0 && CompareSpec(NOTHING, y) <= 0;
    assert CompareSpec(x, y) <= 0 && CompareSpec(y, x) <= 0;
  }

  /** The specificity a rule's declarations enter the cascade with. */
  function Best(chain: Chain, sels: seq<Selector>): (best: Spec)
    ensures IsBest(chain, sels, |sels|, best)
  {
    if sels == [] then NOTHING
    else
      var n := |sels| - 1;
      var b := Best(chain, sels[..n]);
      assert forall i :: 0 <= i < n ==> sels[..n][i] == sels[i];
      if Matches(chain, sels[n].parts) && CompareSpec(sels[n].spec, b) > 0 then sels[n].spec else b
  }

  function Entered(decls: seq<Decl>, spec: Spec, order: int): (cs: seq<Cand>)
    ensures |cs| == |decls|
  {
    seq(|decls|, i requires 0 <= i < |decls| => Cand(decls[i].prop, decls[i].value, decls[i].important, spec, order))
  }

  /** The declarations that reach an element, in the order they are applied. */
  ghost function Candidates(chain: Chain, rules: seq<Rule>, n: nat): (cs: seq<Cand>)
    requires n <= |rules|
  {
    if n == 0 then [] else
      var r := rules[n - 1];
      Candidates(chain, rules, n - 1)
      + if r.active && RuleMatches(chain, r) then Entered(r.decls, Best(chain, r.selectors), r.order) else []
  }

  method ApplyDecls(dst: Computed, decls: seq<Decl>, spec: Spec, order: int, ghost cs: seq<Cand>) returns (r: Computed)
    requires dst == ApplyAll(cs)
    ensures r == ApplyAll(cs + Entered(decls, spec, order))
  {
    hide ApplyDeclaration;
    r := dst;
    var i := 0;
    assert cs + Entered(decls, spec, order)[..0] == cs;
    while i < |decls|
      invariant 0 <= i <= |decls| && r == ApplyAll(cs + Entered(decls, spec, order)[..i])
    {
      var c := Cand(decls[i].prop, decls[i].value, decls[i].important, spec, order);
      ghost var next := cs + Entered(decls, spec, order)[..i + 1];
      assert next[..|next| - 1] == cs + Entered(decls, spec, order)[..i] && next[|next| - 1] == c;
      r := ApplyDeclaration(r, c);
      i := i + 1;
    }
    assert Entered(decls, spec, order)[..i] == Entered(decls, spec, order);
  }

  /** Whether a rule matches, and the best specificity with which it does. */
  method TryRule(chain: Chain, r: Rule) returns (matched: bool, best: Spec)
    ensures matched <==> RuleMatches(chain, r)
    ensures best == Best(chain, r.selectors)
  {
    hide Matches, CompareSpec;
    matched, best := false, NOTHING;
    var i := 0;
    while i < |r.selectors|
      invariant 0 <= i <= |r.selectors|
      invariant matched <==> exists k :: 0 <= k < i && Matches(chain, r.selectors[k].parts)
      invariant best == Best(chain, r.selectors[..i])
    {
      assert r.selectors[..i + 1][..i] == r.selectors[..i];
      if Matches(chain, r.selectors[i].parts) {
        matched := true;
        if CompareSpec(r.selectors[i].spec, best) > 0 {
          best := r.selectors[i].spec;
        }
      }
      i := i + 1;
    }
    assert r.selectors[..i] == r.selectors;
  }

  /** Computes an element's style: the fold over all declarations that reach it,
      those of its style attribute last. */
  method StyleOf(chain: Chain, rules: seq<Rule>, inline: seq<Decl>) returns (computed: Computed)
    ensures computed == ApplyAll(Candidates(chain, rules, |rules|) + Entered(inline, INLINE_SPEC, INLINE_ORDER))
  {
    hide ApplyAll, Best, RuleMatches, Entered;
    computed := map[];
    assert computed == ApplyAll([]) by { NoCandidates(); }
    var n := 0;
    while n < |rules|
      invariant 0 <= n <= |rules| && computed == ApplyAll(Candidates(chain, rules, n))
    {
      ghost var cs := Candidates(chain, rules, n);
      assert cs + [] == cs;
      var rule := rules[n];
      if rule.active {
        var matched, best := TryRule(chain, rule);
        if matched {
          computed := ApplyDecls(computed, rule.decls, best, rule.order, cs);
        }
      }
      n := n + 1;
    }
    computed := ApplyDecls(computed, inline, INLINE_SPEC, INLINE_ORDER, Candidates(chain, rules, |rules|));
  }

  lemma NoCandidates()
    ensures ApplyAll([]) == map[]
  {
  }

  /** An element of the document: its chain, its style attribute and the values
      computed for it. */
  class Element {
    const chain: Chain
    const inline: seq<Decl>
    var computed: map<string, string>

    constructor (chain: Chain, inline: seq<Decl>)
      ensures this.chain == chain && this.inline == inline && computed == map[]
    {
      this.chain, this.inline, this.computed := chain, inline, map[];
    }
  }

  ghost function Reaching(chain: Chain, rules: seq<Rule>, inline: seq<Decl>): (cs: seq<Cand>)
  {
    Candidates(chain, rules, |rules|) + Entered(inline, INLINE_SPEC, INLINE_ORDER)
  }

  /** Every property declared for the element has the value of the declaration that
      wins the cascade; without any declaration the old values stay. */
  ghost predicate Styled(cs: seq<Cand>, before: map<string, string>, after: map<string, string>)
  {
    if forall i :: 0 <= i < |cs| ==> cs[i].prop == "" then after == before
    else
      && (forall p :: p in after <==> p != "" && exists i :: 0 <= i < |cs| && cs[i].prop == p)
      && (forall p :: p in after ==> exists i :: 0 <= i < |cs| && cs[i].prop == p && Wins(cs, i) && after[p] == cs[i].value)
  }

  lemma StyledBy(cs: seq<Cand>, before: map<string, string>)
    ensures var c := ApplyAll(cs);
      Styled(cs, before, if c == map[] then before else map p | p in c :: c[p].value)
  {
    hide ApplyAll, Wins;
    var c := ApplyAll(cs);
    forall p
      ensures p in c <==> p != "" && exists i :: 0 <= i < |cs| && cs[i].prop == p
      ensures p in c ==> exists i :: 0 <= i < |cs| && cs[i].prop == p && Wins(cs, i) && c[p] == cs[i]
    {
      FoldWins(cs, p);
    }
    if i :| 0 <= i < |cs| && cs[i].prop != "" {
      assert cs[i].prop in c;
    } else {
      assert c == map[];
    }
  }

  /** Styles every element of a document. */
  method ApplyStyles(doc: seq<Element>, rules: seq<Rule>)
    requires forall i, j :: 0 <= i < j < |doc| ==> doc[i] != doc[j]
    modifies doc
    ensures forall k :: 0 <= k < |doc| ==>
      Styled(Reaching(doc[k].chain, rules, doc[k].inline), old(doc[k].computed), doc[k].computed)
  {
    hide Styled, Candidates, ApplyAll, Entered;
    var n := 0;
    while n < |doc|
      invariant 0 <= n <= |doc|
      invariant forall k :: 0 <= k < n ==>
        Styled(Reaching(doc[k].chain, rules, doc[k].inline), old(doc[k].computed), doc[k].computed)
      invariant forall k :: n <= k < |doc| ==> doc[k].computed == old(doc[k].computed)
    {
      var e := doc[n];
      var c := StyleOf(e.chain, rules, e.inline);
      StyledBy(Reaching(e.chain, rules, e.inline), e.computed);
      if c != map[] {
        e.computed := map p | p in c :: c[p].value;
      }
      n := n + 1;
    }
  }
}
