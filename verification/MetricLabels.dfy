/** Metric names with labels: splitting at unquoted commas, and the canonical key. */
module MetricLabels {
  import opened Options

  /** Unicode white space, as `trim` removes it. */
  predicate White(c: char) {
    var n := c as int;
    || 0x09 <= n <= 0x0D || n == 0x20 || n == 0x85 || n == 0xA0 || n == 0x1680 || 0x2000 <= n <= 0x200A
    || n == 0x2028 || n == 0x2029 || n == 0x202F || n == 0x205F || n == 0x3000
  }

  function TrimStart(s: string): string { if s != [] && White(s[0]) then TrimStart(s[1..]) else s }

  function TrimEnd(s: string): string { if s != [] && White(s[|s| - 1]) then TrimEnd(s[..|s| - 1]) else s }

  function Trim(s: string): string { TrimEnd(TrimStart(s)) }

  predicate AllWhite(s: string) { forall i :: 0 <= i < |s| ==> White(s[i]) }

  /** Neither end is white space. */
  predicate Tight(s: string) { s != [] ==> !White(s[0]) && !White(s[|s| - 1]) }

  /** The characters with Unicode's White_Space property. */
  lemma {:induction false} WhiteList(c: char)
    ensures White(c) <==> c as int in {
                            9, 10, 11, 12, 13, 32, 133, 160, 5760, 8192, 8193, 8194, 8195, 8196, 8197, 8198, 8199, 8200,
                            8201, 8202, 8232, 8233, 8239, 8287, 12288}
  {
  }

  lemma {:induction false} TrimStartExact(a: string, s: string)
    requires AllWhite(a) && (s != [] ==> !White(s[0]))
    ensures TrimStart(a + s) == s
  {
    if a == [] {
      assert a + s == s;
    } else {
      assert (a + s)[1..] == a[1..] + s;
      TrimStartExact(a[1..], s);
    }
  }

  lemma {:induction false} TrimEndExact(s: string, b: string)
    requires AllWhite(b) && (s != [] ==> !White(s[|s| - 1]))
    ensures TrimEnd(s + b) == s
  {
    if b == [] {
      assert s + b == s;
    } else {
      assert (s + b)[..|s + b| - 1] == s + b[..|b| - 1];
      TrimEndExact(s, b[..|b| - 1]);
    }
  }

  /** Trimming takes away exactly the white space on both sides. */
  lemma {:induction false} TrimExact(a: string, s: string, b: string)
    requires AllWhite(a) && AllWhite(b) && Tight(s)
    ensures Trim(a + s + b) == s
  {
    if s == [] {
      assert a + s + b == (a + b) + [];
      TrimStartExact(a + b, []);
      TrimEndExact([], []);
      assert [] + [] == s;
    } else {
      assert a + s + b == a + (s + b);
      TrimStartExact(a, s + b);
      TrimEndExact(s, b);
    }
  }

  // ---------------------------------------------------------------------------
  // Splitting
  // ---------------------------------------------------------------------------

  datatype Scan = Scan(quoted: bool, escaped: bool)

  const START := Scan(false, false)

  function Advance(st: Scan, c: char): Scan {
    if st.escaped then Scan(st.quoted, false)
    else if c == '\\' && st.quoted then Scan(true, true)
    else if c == '\"' then Scan(!st.quoted, false)
    else st
  }

  predicate Separates(st: Scan, c: char) { c == ',' && !st.quoted && !st.escaped }

  /** `s` put in front of the first piece. */
  function InFront(s: string, pieces: seq<string>): (r: seq<string>)
    requires pieces != []
    ensures r != []
  {
    [s + pieces[0]] + pieces[1..]
  }

  /** The text between separating commas. */
  function Pieces(s: string, st: Scan): (r: seq<string>)
    ensures r != []
  {
    if s == [] then [[]]
    else if Separates(st, s[0]) then [[]] + Pieces(s[1..], st)
    else InFront([s[0]], Pieces(s[1..], Advance(st, s[0])))
  }

  function Trimmed(pieces: seq<string>): (r: seq<string>)
    ensures |r| == |pieces|
  {
    seq(|pieces|, i requires 0 <= i < |pieces| => Trim(pieces[i]))
  }

  /** Pieces without surrounding space; nothing after a trailing comma is no piece. */
  function Tidy(pieces: seq<string>): seq<string>
    requires pieces != []
  {
    var n := |pieces| - 1;
    Trimmed(if pieces[n] == [] then pieces[..n] else pieces)
  }

  function Split(s: string): seq<string> { Tidy(Pieces(s, START)) }

  lemma {:induction false} InFrontTwice(a: string, b: string, pieces: seq<string>)
    requires pieces != []
    ensures InFront(a, InFront(b, pieces)) == InFront(a + b, pieces)
  {
    assert a + (b + pieces[0]) == a + b + pieces[0];
  }

  lemma {:induction false} InFrontNothing(pieces: seq<string>)
    requires pieces != []
    ensures InFront([], pieces) == pieces
  {
    assert [] + pieces[0] == pieces[0];
  }

  lemma {:induction false} InFrontEmpty(s: string, pieces: seq<string>)
    ensures InFront(s, [[]] + pieces) == [s] + pieces
  {
    assert s + [] == s && ([[]] + pieces)[1..] == pieces;
  }

  lemma {:induction false} StepInside(s: string, c: char, rest: string, st: Scan)
    requires !Separates(st, c)
    ensures InFront(s, Pieces([c] + rest, st)) == InFront(s + [c], Pieces(rest, Advance(st, c)))
  {
    assert ([c] + rest)[1..] == rest;
    InFrontTwice(s, [c], Pieces(rest, Advance(st, c)));
  }

  lemma {:induction false} StepComma(s: string, rest: string, st: Scan)
    requires Separates(st, ',')
    ensures InFront(s, Pieces([','] + rest, st)) == [s] + InFront([], Pieces(rest, st))
  {
    assert ([','] + rest)[1..] == rest;
    InFrontNothing(Pieces(rest, st));
    InFrontEmpty(s, Pieces(rest, st));
  }

  lemma {:induction false} TidyFirst(p: string, pieces: seq<string>)
    requires pieces != []
    ensures Tidy([p] + pieces) == [Trim(p)] + Tidy(pieces)
  {
    var n := |pieces| - 1;
    assert ([p] + pieces)[..n + 1] == [p] + pieces[..n];
    TrimmedFirst(p, if pieces[n] == [] then pieces[..n] else pieces);
  }

  lemma {:induction false} TrimmedFirst(p: string, pieces: seq<string>)
    ensures Trimmed([p] + pieces) == [Trim(p)] + Trimmed(pieces)
  {
  }

  /** What is still to be output from position `i`, when the current piece began at `start`. */
  function Ahead(s: string, start: nat, i: nat, st: Scan): seq<string>
    requires start <= i <= |s|
    decreases |s| - i
  {
    if i == |s| then (if start < |s| then [Trim(s[start..])] else [])
    else if Separates(st, s[i]) then [Trim(s[start..i])] + Ahead(s, i + 1, i + 1, st)
    else Ahead(s, start, i + 1, Advance(st, s[i]))
  }

  lemma {:induction false} TidyAtComma(s: string, start: nat, i: nat, st: Scan)
    requires start <= i < |s| && Separates(st, s[i])
    ensures Tidy(InFront(s[start..i], Pieces(s[i..], st)))
            == [Trim(s[start..i])] + Tidy(InFront(s[i + 1..i + 1], Pieces(s[i + 1..], st)))
  {
    assert s[i..] == [s[i]] + s[i + 1..];
    StepComma(s[start..i], s[i + 1..], st);
    assert s[i + 1..i + 1] == [];
    TidyFirst(s[start..i], InFront([], Pieces(s[i + 1..], st)));
  }

  lemma {:induction false} TidyInside(s: string, start: nat, i: nat, st: Scan)
    requires start <= i < |s| && !Separates(st, s[i])
    ensures InFront(s[start..i], Pieces(s[i..], st)) == InFront(s[start..i + 1], Pieces(s[i + 1..], Advance(st, s[i])))
  {
    assert s[i..] == [s[i]] + s[i + 1..];
    StepInside(s[start..i], s[i], s[i + 1..], st);
    assert s[start..i + 1] == s[start..i] + [s[i]];
  }

  lemma {:induction false} AheadIsTidy(s: string, start: nat, i: nat, st: Scan)
    requires start <= i <= |s|
    ensures Ahead(s, start, i, st) == Tidy(InFront(s[start..i], Pieces(s[i..], st)))
    decreases |s| - i
  {
    if i == |s| {
      assert s[i..] == [] && s[start..i] == s[start..];
      InFrontEmpty(s[start..], []);
      assert [[]] + [] == Pieces([], st);
      assert [s[start..]] + [] == [s[start..]];
    } else if Separates(st, s[i]) {
      AheadIsTidy(s, i + 1, i + 1, st);
      TidyAtComma(s, start, i, st);
    } else {
      AheadIsTidy(s, start, i + 1, Advance(st, s[i]));
      TidyInside(s, start, i, st);
    }
  }

  lemma {:induction false} AheadIsSplit(s: string)
    ensures Ahead(s, 0, 0, START) == Split(s)
  {
    AheadIsTidy(s, 0, 0, START);
    InFrontNothing(Pieces(s, START));
    assert s[0..0] == [] && s[0..] == s;
  }

  method SplitLabels(labels: string) returns (output: seq<string>)
    ensures output == Split(labels)
  {
    output := [];
    var start := 0;
    var quoted, escaped := false, false;
    var i := 0;
    ghost var all := Ahead(labels, 0, 0, START);
    while i < |labels|
      invariant 0 <= start <= i <= |labels|
      invariant all == output + Ahead(labels, start, i, Scan(quoted, escaped))
    {
      var c := labels[i];
      i := i + 1;
      if escaped {
        escaped := false;
      } else if c == '\\' && quoted {
        escaped := true;
      } else if c == '\"' {
        quoted := !quoted;
      } else if c == ',' && !quoted {
        output := output + [Trim(labels[start..i - 1])];
        start := i;
      }
    }
    AheadIsSplit(labels);
    if start < |labels| {
      output := output + [Trim(labels[start..])];
    }
  }

  // ---------------------------------------------------------------------------
  // Well-formed labels
  // ---------------------------------------------------------------------------

  /** From `st`, no separating comma is met and the text ends outside quotes. */
  predicate Clean(s: string, st: Scan) {
    if s == [] then st == START else !Separates(st, s[0]) && Clean(s[1..], Advance(st, s[0]))
  }

  /** Nonempty, without surrounding space, commas only inside balanced escaped quotes. */
  predicate WellFormed(l: string) { l != [] && Tight(l) && Clean(l, START) }

  predicate AllWellFormed(ls: seq<string>) { forall i :: 0 <= i < |ls| ==> WellFormed(ls[i]) }

  function Join(ls: seq<string>): string {
    if ls == [] then [] else if |ls| == 1 then ls[0] else ls[0] + [','] + Join(ls[1..])
  }

  lemma {:induction false} CleanIsOnePiece(l: string, st: Scan, rest: string)
    requires Clean(l, st)
    ensures Pieces(l + rest, st) == InFront(l, Pieces(rest, START))
    decreases |l|
  {
    if l == [] {
      assert l + rest == rest;
      InFrontNothing(Pieces(rest, START));
    } else {
      var st' := Advance(st, l[0]);
      assert (l + rest)[1..] == l[1..] + rest;
      CleanIsOnePiece(l[1..], st', rest);
      InFrontTwice([l[0]], l[1..], Pieces(rest, START));
      assert [l[0]] + l[1..] == l;
    }
  }

  lemma {:induction false} PiecesOfJoin(ls: seq<string>)
    requires ls != [] && forall i :: 0 <= i < |ls| ==> Clean(ls[i], START)
    ensures Pieces(Join(ls), START) == ls
  {
    var l := ls[0];
    if |ls| == 1 {
      CleanIsOnePiece(l, START, []);
      assert l + [] == l && InFront(l, [[]]) == [l] == ls;
    } else {
      var rest := [','] + Join(ls[1..]);
      CleanIsOnePiece(l, START, rest);
      assert Join(ls) == l + rest;
      assert rest[1..] == Join(ls[1..]);
      PiecesOfJoin(ls[1..]);
      InFrontEmpty(l, ls[1..]);
      assert [l] + ls[1..] == ls;
    }
  }

  /** Labels with white space around each. */
  function Padded(before: seq<string>, ls: seq<string>, after: seq<string>): (r: seq<string>)
    requires |before| == |ls| == |after|
    ensures |r| == |ls|
  {
    seq(|ls|, i requires 0 <= i < |ls| => before[i] + ls[i] + after[i])
  }

  predicate AllSpace(ss: seq<string>) { forall i :: 0 <= i < |ss| ==> AllWhite(ss[i]) }

  function Nothing(n: nat): (ss: seq<string>)
    ensures |ss| == n && AllSpace(ss)
  {
    seq(n, i => "")
  }

  lemma {:induction false} NoPadding(ls: seq<string>)
    ensures Padded(Nothing(|ls|), ls, Nothing(|ls|)) == ls
  {
    var none := Nothing(|ls|);
    forall i | 0 <= i < |ls| ensures Padded(none, ls, none)[i] == ls[i] {
      assert none[i] + ls[i] == ls[i] && ls[i] + none[i] == ls[i];
    }
  }

  /** White space does not move the scan. */
  lemma {:induction false} CleanSpace(a: string, s: string)
    requires AllWhite(a)
    ensures Clean(a + s, START) <==> Clean(s, START)
  {
    if a == [] {
      assert a + s == s;
    } else {
      assert (a + s)[1..] == a[1..] + s;
      CleanSpace(a[1..], s);
    }
  }

  lemma {:induction false} CleanThen(s: string, st: Scan, b: string)
    requires Clean(s, st) && Clean(b, START)
    ensures Clean(s + b, st)
    decreases |s|
  {
    if s == [] {
      assert s + b == b;
    } else {
      assert (s + b)[1..] == s[1..] + b;
      CleanThen(s[1..], Advance(st, s[0]), b);
    }
  }

  lemma {:induction false} PaddedLabel(a: string, l: string, b: string)
    requires WellFormed(l) && AllWhite(a) && AllWhite(b)
    ensures Clean(a + l + b, START) && Trim(a + l + b) == l && a + l + b != []
  {
    CleanSpace(b, []);
    assert b + [] == b;
    CleanThen(l, START, b);
    assert a + l + b == a + (l + b);
    CleanSpace(a, l + b);
    TrimExact(a, l, b);
  }

  /** Splitting undoes joining, whatever white space surrounds the labels. */
  lemma {:induction false} SplitOfPadded(before: seq<string>, ls: seq<string>, after: seq<string>)
    requires AllWellFormed(ls) && |before| == |ls| == |after| && AllSpace(before) && AllSpace(after)
    ensures Split(Join(Padded(before, ls, after))) == ls
  {
    var ps := Padded(before, ls, after);
    forall i | 0 <= i < |ls| ensures Clean(ps[i], START) && Trim(ps[i]) == ls[i] && ps[i] != [] {
      PaddedLabel(before[i], ls[i], after[i]);
    }
    if ls == [] {
      assert Pieces([], START)[..0] == [];
    } else {
      PiecesOfJoin(ps);
      assert Trimmed(ps) == ls;
    }
  }

  /** Splitting undoes joining. */
  lemma {:induction false} SplitOfJoin(ls: seq<string>)
    requires AllWellFormed(ls)
    ensures Split(Join(ls)) == ls
  {
    NoPadding(ls);
    SplitOfPadded(Nothing(|ls|), ls, Nothing(|ls|));
  }

  // ---------------------------------------------------------------------------
  // The order of strings, and sorting
  // ---------------------------------------------------------------------------

  predicate Leq(a: string, b: string) {
    a == [] || (b != [] && (a[0] < b[0] || (a[0] == b[0] && Leq(a[1..], b[1..]))))
  }

  /** The order is lexicographic by character: at the first difference the smaller character
      decides, and a proper prefix comes first. */
  lemma {:induction false} LeqIsLexicographic(a: string, b: string, i: nat)
    requires i <= |a| && i <= |b| && a[..i] == b[..i]
    ensures i == |a| ==> Leq(a, b)
    ensures i == |b| < |a| ==> !Leq(a, b)
    ensures i < |a| && i < |b| && a[i] != b[i] ==> (Leq(a, b) <==> a[i] < b[i])
  {
    if i != 0 {
      assert a[0] == a[..i][0] == b[0];
      assert a[1..][..i - 1] == a[..i][1..] && b[1..][..i - 1] == b[..i][1..];
      LeqIsLexicographic(a[1..], b[1..], i - 1);
    }
  }

  lemma {:induction false} LeqTotal(a: string, b: string)
    ensures Leq(a, b) || Leq(b, a)
  {
    if a != [] && b != [] && a[0] == b[0] { LeqTotal(a[1..], b[1..]); }
  }

  lemma {:induction false} LeqAntisymmetric(a: string, b: string)
    requires Leq(a, b) && Leq(b, a)
    ensures a == b
  {
    if a != [] {
      LeqAntisymmetric(a[1..], b[1..]);
      assert a == [a[0]] + a[1..] && b == [b[0]] + b[1..];
    }
  }

  lemma {:induction false} LeqTransitive(a: string, b: string, c: string)
    requires Leq(a, b) && Leq(b, c)
    ensures Leq(a, c)
  {
    if a != [] && a[0] == b[0] == c[0] { LeqTransitive(a[1..], b[1..], c[1..]); }
  }

  predicate Ordered(ls: seq<string>) { forall i, j :: 0 <= i < j < |ls| ==> Leq(ls[i], ls[j]) }

  function Insert(l: string, ls: seq<string>): seq<string> {
    if ls == [] || Leq(l, ls[0]) then [l] + ls else [ls[0]] + Insert(l, ls[1..])
  }

  function Sort(ls: seq<string>): seq<string> {
    if ls == [] then [] else Insert(ls[0], Sort(ls[1..]))
  }

  lemma {:induction false} InsertIsPermutation(l: string, ls: seq<string>)
    ensures multiset(Insert(l, ls)) == multiset(ls) + multiset{l}
  {
    if ls != [] && !Leq(l, ls[0]) {
      InsertIsPermutation(l, ls[1..]);
      assert ls == [ls[0]] + ls[1..];
    }
  }

  lemma {:induction false} SortIsPermutation(ls: seq<string>)
    ensures multiset(Sort(ls)) == multiset(ls)
  {
    if ls != [] {
      SortIsPermutation(ls[1..]);
      InsertIsPermutation(ls[0], Sort(ls[1..]));
      assert ls == [ls[0]] + ls[1..];
    }
  }

  lemma {:induction false} InsertOrdered(l: string, ls: seq<string>)
    requires Ordered(ls)
    ensures Ordered(Insert(l, ls))
  {
    if ls == [] {
    } else if Leq(l, ls[0]) {
      forall j | 0 <= j < |ls| ensures Leq(l, ls[j]) {
        if j > 0 { LeqTransitive(l, ls[0], ls[j]); }
      }
    } else {
      InsertOrdered(l, ls[1..]);
      LeqTotal(l, ls[0]);
      InsertIsPermutation(l, ls[1..]);
      var t := Insert(l, ls[1..]);
      forall j | 0 <= j < |t| ensures Leq(ls[0], t[j]) {
        assert t[j] in multiset(t);
        assert t[j] == l || t[j] in ls[1..];
      }
    }
  }

  lemma {:induction false} SortOrdered(ls: seq<string>)
    ensures Ordered(Sort(ls))
  {
    if ls != [] {
      SortOrdered(ls[1..]);
      InsertOrdered(ls[0], Sort(ls[1..]));
    }
  }

  lemma {:induction false} LeastFirst(a: seq<string>, x: string)
    requires Ordered(a) && x in a
    ensures Leq(a[0], x)
  {
    LeqTotal(x, x);
    var i :| 0 <= i < |a| && a[i] == x;
  }

  lemma {:induction false} InOther<T>(a: seq<T>, b: seq<T>, x: T)
    requires multiset(a) == multiset(b) && x in a
    ensures x in b
  {
    assert x in multiset(a);
  }

  lemma {:induction false} SameTail<T>(a: seq<T>, b: seq<T>)
    requires a != [] && b != [] && a[0] == b[0] && multiset(a) == multiset(b)
    ensures multiset(a[1..]) == multiset(b[1..])
  {
    assert a == [a[0]] + a[1..] && b == [b[0]] + b[1..];
    assert multiset(a[1..]) == multiset(a) - multiset{a[0]} == multiset(b[1..]);
  }

  lemma {:induction false} SameHead(a: seq<string>, b: seq<string>)
    requires a != [] && Ordered(a) && Ordered(b) && multiset(a) == multiset(b)
    ensures b != [] && a[0] == b[0]
  {
    InOther(a, b, a[0]);
    InOther(b, a, b[0]);
    LeastFirst(a, b[0]);
    LeastFirst(b, a[0]);
    LeqAntisymmetric(a[0], b[0]);
  }

  /** An ordered list is determined by what is in it. */
  lemma {:induction false} OrderedUnique(a: seq<string>, b: seq<string>)
    requires Ordered(a) && Ordered(b) && multiset(a) == multiset(b)
    ensures a == b
  {
    if a == [] {
      assert |b| == |multiset(b)| == |multiset(a)| == 0;
    } else {
      SameHead(a, b);
      SameTail(a, b);
      OrderedUnique(a[1..], b[1..]);
      assert a == [a[0]] + a[1..] && b == [b[0]] + b[1..];
    }
  }

  lemma {:induction false} SortAgrees(a: seq<string>, b: seq<string>)
    requires multiset(a) == multiset(b)
    ensures Sort(a) == Sort(b)
  {
    SortIsPermutation(a);
    SortIsPermutation(b);
    SortOrdered(a);
    SortOrdered(b);
    OrderedUnique(Sort(a), Sort(b));
  }

  // ---------------------------------------------------------------------------
  // The canonical key
  // ---------------------------------------------------------------------------

  function Find(s: string, c: char): (r: Option<nat>)
    ensures r.Some? ==> r.value < |s| && s[r.value] == c && c !in s[..r.value]
    ensures r.None? <==> c !in s
  {
    if s == [] then None
    else if s[0] == c then Some(0)
    else match Find(s[1..], c) case None => None case Some(i) => assert s[..i + 1] == [s[0]] + s[1..][..i]; Some(i + 1)
  }

  lemma {:induction false} FirstAt(s: string, i: nat, c: char)
    requires i < |s| && s[i] == c && c !in s[..i]
    ensures Find(s, c) == Some(i)
  {
    if i != 0 {
      assert s[..i] == [s[0]] + s[1..][..i - 1];
      assert s[0] == s[..i][0];
      FirstAt(s[1..], i - 1, c);
    }
  }

  function FindLast(s: string, c: char): (r: Option<nat>)
    ensures r.Some? ==> r.value < |s| && s[r.value] == c && c !in s[r.value + 1..]
    ensures r.None? <==> c !in s
  {
    if s == [] then None
    else if s[|s| - 1] == c then Some(|s| - 1)
    else
      var n := |s| - 1;
      match FindLast(s[..n], c)
      case None => None
      case Some(i) => assert s[i + 1..] == s[..n][i + 1..] + [s[n]]; Some(i)
  }

  /** Without both braces the name is its own key. A closing brace only before the
      opening one is an out-of-range slice in the source: no key. */
  function CanonicalKey(name: string): Option<string> {
    var open, close := Find(name, '{'), FindLast(name, '}');
    if open.None? || close.None? then Some(name)
    else if close.value < open.value + 1 then None
    else Some(name[..open.value] + ['{'] + Join(Sort(Split(name[open.value + 1..close.value]))) + ['}'])
  }

  method CanonicalMetricKey(name: string) returns (r: Option<string>)
    ensures r == CanonicalKey(name)
  {
    var open := Find(name, '{');
    if open.None? { return Some(name); }
    var close := FindLast(name, '}');
    if close.None? { return Some(name); }
    if close.value < open.value + 1 { return None; }
    var labels := SplitLabels(name[open.value + 1..close.value]);
    return Some(name[..open.value] + ['{'] + Join(Sort(labels)) + ['}']);
  }

  function Labelled(metric: string, ls: seq<string>): string { metric + ['{'] + Join(ls) + ['}'] }

  /** The key of a labelled metric has its labels sorted and the white space around them
      gone. */
  lemma {:induction false} KeyOfPadded(metric: string, before: seq<string>, ls: seq<string>, after: seq<string>)
    requires '{' !in metric && AllWellFormed(ls)
    requires |before| == |ls| == |after| && AllSpace(before) && AllSpace(after)
    ensures CanonicalKey(Labelled(metric, Padded(before, ls, after))) == Some(Labelled(metric, Sort(ls)))
    ensures Ordered(Sort(ls)) && multiset(Sort(ls)) == multiset(ls)
  {
    var ps := Padded(before, ls, after);
    var name := Labelled(metric, ps);
    var n := |name| - 1;
    assert name[|metric|] == '{' && name[n] == '}';
    assert name[..|metric|] == metric;
    var close := FindLast(name, '}');
    FirstAt(name, |metric|, '{');
    assert close == Some(n);
    assert name[|metric| + 1..n] == Join(ps);
    SplitOfPadded(before, ls, after);
    SortOrdered(ls);
    SortIsPermutation(ls);
  }

  lemma {:induction false} KeyOfLabelled(metric: string, ls: seq<string>)
    requires '{' !in metric && AllWellFormed(ls)
    ensures CanonicalKey(Labelled(metric, ls)) == Some(Labelled(metric, Sort(ls)))
  {
    NoPadding(ls);
    KeyOfPadded(metric, Nothing(|ls|), ls, Nothing(|ls|));
  }

  /** The key does not depend on the order of the labels. */
  lemma {:induction false} KeyIgnoresOrder(metric: string, ls: seq<string>, ls': seq<string>)
    requires '{' !in metric && AllWellFormed(ls) && multiset(ls) == multiset(ls')
    ensures CanonicalKey(Labelled(metric, ls)) == CanonicalKey(Labelled(metric, ls'))
  {
    WellFormedPermutation(ls, ls');
    KeyOfLabelled(metric, ls);
    KeyOfLabelled(metric, ls');
    SortAgrees(ls, ls');
  }

  lemma {:induction false} WellFormedPermutation(ls: seq<string>, ls': seq<string>)
    requires AllWellFormed(ls) && multiset(ls) == multiset(ls')
    ensures AllWellFormed(ls')
  {
    forall i | 0 <= i < |ls'| ensures WellFormed(ls'[i]) {
      assert ls'[i] in multiset(ls');
      assert ls'[i] in ls;
    }
  }

  /** A key is its own key. */
  lemma {:induction false} KeyIdempotent(metric: string, ls: seq<string>)
    requires '{' !in metric && AllWellFormed(ls)
    ensures CanonicalKey(CanonicalKey(Labelled(metric, ls)).value) == CanonicalKey(Labelled(metric, ls))
  {
    KeyOfLabelled(metric, ls);
    SortIsPermutation(ls);
    WellFormedPermutation(ls, Sort(ls));
    KeyOfLabelled(metric, Sort(ls));
    SortAgrees(Sort(ls), ls);
  }

  /** Different sets of labels have different keys. */
  lemma {:induction false} KeyDeterminesLabels(metric: string, ls: seq<string>, ls': seq<string>)
    requires '{' !in metric && AllWellFormed(ls) && AllWellFormed(ls')
    requires CanonicalKey(Labelled(metric, ls)) == CanonicalKey(Labelled(metric, ls'))
    ensures multiset(ls) == multiset(ls')
  {
    KeyOfLabelled(metric, ls);
    KeyOfLabelled(metric, ls');
    SortIsPermutation(ls);
    SortIsPermutation(ls');
    WellFormedPermutation(ls, Sort(ls));
    WellFormedPermutation(ls', Sort(ls'));
    var a, b := Labelled(metric, Sort(ls)), Labelled(metric, Sort(ls'));
    assert a[|metric| + 1..|a| - 1] == Join(Sort(ls)) && b[|metric| + 1..|b| - 1] == Join(Sort(ls'));
    SplitOfJoin(Sort(ls));
    SplitOfJoin(Sort(ls'));
  }
}
