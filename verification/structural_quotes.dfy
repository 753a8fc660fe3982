// The rescue of structural quotes that a model wrote escaped: three regular
// expressions pick out quotes, and the backslash before each is spliced away.
module StructuralQuotes {
  import opened Texts
  import opened Json

  // ---- The patterns, read from left to right ----

  /** `Quote` is a quote with or without a backslash, `Escaped` one with a backslash. */
  datatype Atom = Delim | Spaces | Quote | EscapedQuote | Key | Colon | Comma | Close

  type Pattern = List<Atom>

  /** A key between quotes, and the separator after it. */
  const KEY_COLON: Pattern := Cons(Quote, Cons(Key, Cons(Quote, Cons(Spaces, Cons(Colon, Nil)))))

  /** `STRUCTURAL_KV_PAIR` after its delimiter. */
  const KV_TAIL: Pattern := Cons(Spaces, Cons(Quote,
      Cons(Key, Cons(Quote, Cons(Spaces, Cons(Colon, Cons(Spaces, Cons(Quote, Nil))))))))

  /** `STRUCTURAL_KV_PAIR` */
  const KV_PAIR: Pattern := Cons(Delim, KV_TAIL)

  /** `STRUCTURAL_VALUE_CLOSE_THEN_KEY` */
  const CLOSE_THEN_KEY: Pattern := Cons(Quote, Cons(Spaces, Cons(Comma, Cons(Spaces, KEY_COLON))))

  /** `STRUCTURAL_VALUE_CLOSE` */
  const LAST_CLOSE: Pattern := Cons(EscapedQuote, Cons(Spaces, Cons(Close, Nil)))

  predicate IsPattern(p: Pattern) {
    p == KV_PAIR || p == CLOSE_THEN_KEY || p == LAST_CLOSE
  }

  predicate IsKeyChar(c: char) { IsAlpha(c) || IsDigit(c) || c == '_' || c == '.' || c == '-' }

  function KeyLength(t: Text): (n: nat)
    ensures n <= |t| && (n < |t| ==> !IsKeyChar(t[n]))
    ensures forall i :: 0 <= i < n ==> IsKeyChar(t[i])
  {
    if t == "" || !IsKeyChar(t[0]) then 0 else
      var n := KeyLength(t[1..]);
      assert forall i :: 0 < i <= n ==> t[i] == t[1..][i - 1];
      n + 1
  }

  predicate EscapedQuoteStarts(t: Text) {
    |t| > 1 && t[0] == BACKSLASH && t[1] == QUOTE
  }

  function AfterChar(t: Text, c: char): Option<Text> {
    if t != "" && t[0] == c then Some(t[1..]) else None
  }

  /** What follows an atom that matches at the start of `t`. No atom can match in two ways here. */
  function AfterAtom(x: Atom, t: Text): (r: Option<Text>)
    ensures r.Some? ==> |r.value| <= |t|
  {
    match x
    case Delim => if t != "" && (t[0] == '{' || t[0] == ',') then Some(t[1..]) else None
    case Spaces => Some(TrimStart(t))
    case Quote => if EscapedQuoteStarts(t) then Some(t[2..]) else AfterChar(t, QUOTE)
    case EscapedQuote => if EscapedQuoteStarts(t) then Some(t[2..]) else None
    case Key =>
      if t != "" && (IsAlpha(t[0]) || t[0] == '_') && KeyLength(t) <= 31 then Some(t[KeyLength(t)..]) else None
    case Colon => AfterChar(t, ':')
    case Comma => AfterChar(t, ',')
    case Close => AfterChar(t, '}')
  }

  function AfterMatch(p: Pattern, t: Text): (r: Option<Text>)
    ensures r.Some? ==> |r.value| <= |t|
    decreases p
  {
    match p
    case Nil => Some(t)
    case Cons(x, q) =>
      match AfterAtom(x, t)
      case None => None
      case Some(u) => AfterMatch(q, u)
  }

  /** End of the match of `p` at position `a`. */
  function MatchEnd(p: Pattern, s: Text, a: nat): (r: Option<nat>)
    requires a <= |s|
    ensures r.Some? ==> a <= r.value <= |s|
  {
    match AfterMatch(p, s[a..])
    case None => None
    case Some(u) => Some(|s| - |u|)
  }

  // ---- The rewrite ----

  predicate EscapedQuoteAt(s: Text, k: nat) {
    k + 1 < |s| && s[k] == BACKSLASH && s[k + 1] == QUOTE
  }

  /** Some match of `p` covers the two characters at `k`. */
  predicate CoveredBy(p: Pattern, s: Text, k: nat)
    requires k <= |s|
  {
    exists a :: 0 <= a <= k && MatchEnd(p, s, a).Some? && k + 1 < MatchEnd(p, s, a).value
  }

  /** The backslash at `k` escapes a quote inside some match of some pattern. */
  predicate Structural(s: Text, k: nat) {
    EscapedQuoteAt(s, k) && (CoveredBy(KV_PAIR, s, k) || CoveredBy(CLOSE_THEN_KEY, s, k) || CoveredBy(LAST_CLOSE, s, k))
  }

  function Collected(s: Text): set<nat> {
    set k: nat | 0 <= k < |s| && Structural(s, k)
  }

  /** `s` from position `i` on, without the characters at the positions in `ks`. */
  function Without(s: Text, ks: set<nat>, i: nat): Text
    decreases |s| - i
  {
    if i >= |s| then ""
    else if i in ks then Without(s, ks, i + 1)
    else [s[i]] + Without(s, ks, i + 1)
  }

  function Rewritten(s: Text): Text {
    Without(s, Collected(s), 0)
  }

  function UnEscapeStructuralQuotes(s: Text): Option<Text> {
    if Collected(s) == {} then None else Some(Rewritten(s))
  }

  // ---- Matches of one pattern do not cut into each other ----

  predicate Reads(x: Atom, c: char) {
    match x
    case Delim => c == '{' || c == ','
    case Spaces => IsSpace(c)
    case Quote => c == QUOTE || c == BACKSLASH
    case EscapedQuote => c == QUOTE || c == BACKSLASH
    case Key => IsKeyChar(c)
    case Colon => c == ':'
    case Comma => c == ','
    case Close => c == '}'
  }

  lemma {:induction false} TrimReadsSpace(t: Text, n: nat)
    requires n < |t| - |TrimStart(t)|
    ensures IsSpace(t[n])
    decreases |t|
  {
    if n > 0 { TrimReadsSpace(t[1..], n - 1); }
  }

  lemma AtomReads(x: Atom, t: Text, n: nat)
    requires AfterAtom(x, t).Some? && n < |t| - |AfterAtom(x, t).value|
    ensures Reads(x, t[n])
  {
    if x == Spaces { TrimReadsSpace(t, n); }
  }

  predicate NeverReads(p: Pattern, c: char) {
    match p
    case Nil => true
    case Cons(x, q) => !Reads(x, c) && NeverReads(q, c)
  }

  lemma AtomSuffix(x: Atom, t: Text, n: nat)
    requires AfterAtom(x, t).Some? && |t| - |AfterAtom(x, t).value| <= n <= |t|
    ensures var u := AfterAtom(x, t).value; u == t[|t| - |u|..] && t[n..] == u[n - (|t| - |u|)..]
  {
    if x == Spaces { TrimStartIs(t); }
  }

  lemma {:induction false} MatchNeverReads(p: Pattern, t: Text, c: char, n: nat)
    requires NeverReads(p, c)
    requires AfterMatch(p, t).Some? && n < |t| - |AfterMatch(p, t).value|
    ensures t[n] != c
  {
    var u := AfterAtom(p.head, t).value;
    var m := |t| - |u|;
    if n < m {
      AtomReads(p.head, t, n);
    } else {
      MatchNeverReads(p.tail, u, c, n - m);
      AtomSuffix(p.head, t, n);
    }
  }

  lemma AtomFirst(x: Atom, q: Pattern, t: Text)
    requires AfterMatch(Cons(x, q), t).Some?
    ensures AfterAtom(x, t).Some? && AfterMatch(Cons(x, q), t) == AfterMatch(q, AfterAtom(x, t).value)
  {}

  /** The stops of a match of a key with its colon. */
  lemma KeyColonStops(w: Text) returns (x: Text, y: Text, z: Text)
    requires AfterMatch(KEY_COLON, w).Some?
    ensures AfterAtom(Quote, w) == Some(x) && AfterAtom(Key, x) == Some(y) && AfterAtom(Quote, y) == Some(z)
    ensures AfterAtom(Colon, TrimStart(z)) == AfterMatch(KEY_COLON, w)
  {
    hide AfterAtom, AfterMatch, TrimStart;
    var p1 := KEY_COLON.tail;
    AtomFirst(Quote, p1, w);
    x := AfterAtom(Quote, w).value;
    AtomFirst(Key, p1.tail, x);
    y := AfterAtom(Key, x).value;
    AtomFirst(Quote, p1.tail.tail, y);
    z := AfterAtom(Quote, y).value;
    AtomFirst(Spaces, Cons(Colon, Nil), z);
    var c := AfterAtom(Spaces, z).value;
    AtomFirst(Colon, Nil, c);
    assert c == TrimStart(z) by { SpacesIs(z); }
    assert AfterMatch(Nil, AfterAtom(Colon, c).value) == AfterAtom(Colon, c)
           by { MatchNothing(AfterAtom(Colon, c).value); }
  }

  lemma SpacesIs(t: Text)
    ensures AfterAtom(Spaces, t) == Some(TrimStart(t))
  {}

  lemma MatchNothing(t: Text)
    ensures AfterMatch(Nil, t) == Some(t)
  {}

  /** The stops of a match of `CLOSE_THEN_KEY` before its key. */
  lemma CloseStops(t: Text) returns (u: Text, v: Text, w: Text)
    requires AfterMatch(CLOSE_THEN_KEY, t).Some?
    ensures AfterAtom(Quote, t) == Some(u) && v == TrimStart(u) && v != "" && v[0] == ',' && w == TrimStart(v[1..])
    ensures AfterMatch(CLOSE_THEN_KEY, t) == AfterMatch(KEY_COLON, w)
  {
    hide AfterAtom, AfterMatch, TrimStart;
    var p1 := CLOSE_THEN_KEY.tail;
    AtomFirst(Quote, p1, t);
    u := AfterAtom(Quote, t).value;
    AtomFirst(Spaces, p1.tail, u);
    SpacesIs(u);
    v := TrimStart(u);
    AtomFirst(Comma, p1.tail.tail, v);
    assert v != "" && v[0] == ',' && AfterAtom(Comma, v) == Some(v[1..]) by { CommaIs(v); }
    AtomFirst(Spaces, KEY_COLON, v[1..]);
    SpacesIs(v[1..]);
    w := TrimStart(v[1..]);
  }

  lemma CommaIs(v: Text)
    requires AfterAtom(Comma, v).Some?
    ensures v != "" && v[0] == ',' && AfterAtom(Comma, v) == Some(v[1..])
  {}

  /** A quote that a comma follows, up to white space. */
  predicate ClosesBeforeComma(t: Text) {
    var u := AfterAtom(Quote, t);
    u.Some? && var v := TrimStart(u.value); v != "" && v[0] == ','
  }


  /** From inside a quote the same text is left. */
  lemma QuoteInside(t: Text, u: Text, n: nat)
    requires AfterAtom(Quote, t) == Some(u) && n < |t| - |u|
    ensures AfterAtom(Quote, t[n..]) == Some(u)
  {
    if n > 0 { assert t[1..][1..] == t[2..]; }
  }

  /** Where another atom reads, no quote begins. */
  lemma NoQuoteInside(x: Atom, t: Text, n: nat)
    requires x == Spaces || x == Key || x == Comma || x == Colon
    requires AfterAtom(x, t).Some? && n < |t| - |AfterAtom(x, t).value|
    ensures !ClosesBeforeComma(t[n..])
  {
    AtomReads(x, t, n);
    assert t[n..][0] == t[n];
  }

  lemma KeyStart(x: Text)
    requires AfterAtom(Key, x).Some?
    ensures x != "" && TrimStart(x) == x && x[0] != ','
  {}

  lemma ColonStart(z: Text)
    requires AfterAtom(Colon, z).Some?
    ensures z != "" && z[0] == ':' && AfterAtom(Colon, z) == Some(z[1..])
  {}

  /** Inside a key with its colon no quote is followed by a comma. */
  lemma NoCommaInKey(w: Text, n: nat)
    requires AfterMatch(KEY_COLON, w).Some? && n < |w| - |AfterMatch(KEY_COLON, w).value|
    ensures !ClosesBeforeComma(w[n..])
  {
    var x, y, z := KeyColonStops(w);
    var c := TrimStart(z);
    KeyStart(x);
    ColonStart(c);
    hide AfterMatch, AfterAtom, TrimStart;
    if n < |w| - |x| {
      QuoteInside(w, x, n);
    } else {
      AtomSuffix(Quote, w, n);
      if n < |w| - |y| {
        NoQuoteInside(Key, x, n - (|w| - |x|));
      } else {
        AtomSuffix(Key, x, n - (|w| - |x|));
        KeyEnd(y, z, n - (|w| - |y|));
      }
    }
  }

  lemma KeyEnd(y: Text, z: Text, n: nat)
    requires AfterAtom(Quote, y) == Some(z) && TrimStart(z) != "" && TrimStart(z)[0] == ':' && n <= |y| - |TrimStart(z)|
    ensures !ClosesBeforeComma(y[n..])
  {
    var c := TrimStart(z);
    SpacesIs(z);
    assert AfterAtom(Colon, c) == Some(c[1..]);
    hide AfterAtom, TrimStart;
    if n < |y| - |z| {
      QuoteInside(y, z, n);
    } else {
      AtomSuffix(Quote, y, n);
      if n < |y| - |c| {
        NoQuoteInside(Spaces, z, n - (|y| - |z|));
      } else {
        AtomSuffix(Spaces, z, n - (|y| - |z|));
        NoQuoteInside(Colon, c, 0);
      }
    }
  }

  lemma CloseMatchCloses(t: Text)
    requires AfterMatch(CLOSE_THEN_KEY, t).Some?
    ensures ClosesBeforeComma(t)
  {
    var u, v, w := CloseStops(t);
  }

  /** After the comma of a match of `CLOSE_THEN_KEY` no other begins. */
  lemma NoCloseAfterComma(r: Text, w: Text, n: nat)
    requires w == TrimStart(r) && AfterMatch(KEY_COLON, w).Some? && n < |r| - |AfterMatch(KEY_COLON, w).value|
    ensures !ClosesBeforeComma(r[n..])
  {
    SpacesIs(r);
    hide AfterAtom, AfterMatch, TrimStart, ClosesBeforeComma;
    if n < |r| - |w| {
      NoQuoteInside(Spaces, r, n);
    } else {
      AtomSuffix(Spaces, r, n);
      NoCommaInKey(w, n - (|r| - |w|));
    }
  }

  /** After the first quote of a match of `CLOSE_THEN_KEY` no other begins. */
  lemma NoCloseAfterQuote(u: Text, v: Text, w: Text, n: nat)
    requires v == TrimStart(u) && v != "" && v[0] == ',' && w == TrimStart(v[1..])
    requires AfterMatch(KEY_COLON, w).Some? && n < |u| - |AfterMatch(KEY_COLON, w).value|
    ensures !ClosesBeforeComma(u[n..])
  {
    SpacesIs(u);
    assert AfterAtom(Comma, v) == Some(v[1..]);
    hide AfterAtom, AfterMatch, TrimStart, ClosesBeforeComma;
    if n < |u| - |v| {
      NoQuoteInside(Spaces, u, n);
    } else {
      AtomSuffix(Spaces, u, n);
      if n == |u| - |v| {
        NoQuoteInside(Comma, v, 0);
      } else {
        var k := n - (|u| - |v|);
        AtomSuffix(Comma, v, k);
        NoCloseAfterComma(v[1..], w, k - 1);
      }
    }
  }

  /** A match of `CLOSE_THEN_KEY` that begins inside another one ends with it. */
  lemma CloseThenKeyInside(t: Text, n: nat)
    requires AfterMatch(CLOSE_THEN_KEY, t).Some? && n < |t| - |AfterMatch(CLOSE_THEN_KEY, t).value|
    requires AfterMatch(CLOSE_THEN_KEY, t[n..]).Some?
    ensures AfterMatch(CLOSE_THEN_KEY, t[n..]) == AfterMatch(CLOSE_THEN_KEY, t)
  {
    var u, v, w := CloseStops(t);
    var u', v', w' := CloseStops(t[n..]);
    CloseMatchCloses(t[n..]);
    hide AfterMatch, TrimStart, AfterAtom, ClosesBeforeComma;
    if n < |t| - |u| {
      QuoteInside(t, u, n);
    } else {
      AtomSuffix(Quote, t, n);
      NoCloseAfterQuote(u, v, w, n - (|t| - |u|));
    }
  }

  lemma KvInside(t: Text, n: nat)
    requires AfterMatch(KV_PAIR, t).Some? && 0 < n < |t| - |AfterMatch(KV_PAIR, t).value|
    ensures AfterMatch(KV_PAIR, t[n..]).None?
  {
    AtomFirst(Delim, KV_TAIL, t);
    assert AfterAtom(Delim, t) == Some(t[1..]);
    assert t[n..][0] == t[1..][n - 1];
    if t[n] == '{' || t[n] == ',' { MatchNeverReads(KV_TAIL, t[1..], t[n], n - 1); }
    assert AfterAtom(Delim, t[n..]).None?;
  }

  lemma LastCloseInside(t: Text, n: nat)
    requires AfterMatch(LAST_CLOSE, t).Some? && 0 < n < |t| - |AfterMatch(LAST_CLOSE, t).value|
    ensures AfterMatch(LAST_CLOSE, t[n..]).None?
  {
    var q := LAST_CLOSE.tail;
    AtomFirst(EscapedQuote, q, t);
    assert AfterAtom(EscapedQuote, t) == Some(t[2..]) && t[1] != BACKSLASH;
    if n > 1 {
      MatchNeverReads(q, t[2..], BACKSLASH, n - 2);
      assert t[2..][n - 2] == t[n];
    }
    assert t[n..][0] == t[n];
    assert AfterAtom(EscapedQuote, t[n..]).None?;
  }

  lemma NoOverlap(p: Pattern, s: Text, b: nat, a: nat)
    requires IsPattern(p) && b < a <= |s|
    requires MatchEnd(p, s, b).Some? && a < MatchEnd(p, s, b).value && MatchEnd(p, s, a).Some?
    ensures MatchEnd(p, s, a) == MatchEnd(p, s, b)
  {
    hide AfterMatch;
    var t := s[b..];
    var n := a - b;
    assert t[n..] == s[a..];
    if p == CLOSE_THEN_KEY {
      CloseThenKeyInside(t, n);
    } else if p == KV_PAIR {
      KvInside(t, n);
    } else {
      LastCloseInside(t, n);
    }
  }

  // ---- Collecting and splicing ----

  /** The closure that collects the escaped quotes of one match. */
  method CollectMatch(s: Text, start: nat, end: nat, out: seq<nat>) returns (out': seq<nat>)
    requires start <= end <= |s|
    ensures forall k :: k in out' <==> k in out || (start <= k && k + 1 < end && EscapedQuoteAt(s, k))
  {
    out' := out;
    var i := start;
    while i + 1 < end
      invariant start <= i <= end
      invariant forall k :: k in out' <==> k in out || (start <= k < i && k + 1 < end && EscapedQuoteAt(s, k))
    {
      if s[i] == BACKSLASH && s[i + 1] == QUOTE {
        out' := out' + [i];
        i := i + 2;
      } else {
        i := i + 1;
      }
    }
  }

  /** As `CoveredBy`, for matches that begin before `i`. */
  predicate CoveredBefore(p: Pattern, s: Text, k: nat, i: nat)
    requires i <= |s|
  {
    exists a :: 0 <= a < i && a <= k && MatchEnd(p, s, a).Some? && k + 1 < MatchEnd(p, s, a).value
  }

  lemma CoveredStep(p: Pattern, s: Text, i: nat, j: nat)
    requires IsPattern(p) && i < |s|
    requires if MatchEnd(p, s, i).Some? then j == MatchEnd(p, s, i).value && i < j else j == i + 1
    ensures forall k: nat :: CoveredBefore(p, s, k, j) <==>
              CoveredBefore(p, s, k, i) || (MatchEnd(p, s, i).Some? && i <= k && k + 1 < j)
  {
    hide MatchEnd;
    forall k: nat
      ensures CoveredBefore(p, s, k, j) ==>
                CoveredBefore(p, s, k, i) || (MatchEnd(p, s, i).Some? && i <= k && k + 1 < j)
    {
      if CoveredBefore(p, s, k, j) {
        var a :| 0 <= a < j && a <= k && MatchEnd(p, s, a).Some? && k + 1 < MatchEnd(p, s, a).value;
        if i < a { NoOverlap(p, s, i, a); }
      }
    }
  }

  lemma MatchAdvances(p: Pattern, s: Text, i: nat)
    requires IsPattern(p) && i <= |s| && MatchEnd(p, s, i).Some?
    ensures i < MatchEnd(p, s, i).value
  {
    var t := s[i..];
    AtomFirst(p.head, p.tail, t);
  }

  /** All matches of one pattern, left to right and without overlap, as `find_iter` gives them. */
  method CollectAll(p: Pattern, s: Text, out: seq<nat>) returns (out': seq<nat>)
    requires IsPattern(p)
    ensures forall k: nat :: k in out' <==> k in out || (EscapedQuoteAt(s, k) && CoveredBy(p, s, k))
  {
    hide AfterMatch;
    out' := out;
    var i := 0;
    while i < |s|
      invariant i <= |s|
      invariant forall k: nat :: k in out' <==> k in out || (EscapedQuoteAt(s, k) && CoveredBefore(p, s, k, i))
    {
      var m := MatchEnd(p, s, i);
      if m.Some? {
        MatchAdvances(p, s, i);
        CoveredStep(p, s, i, m.value);
        out' := CollectMatch(s, i, m.value, out');
        i := m.value;
      } else {
        CoveredStep(p, s, i, i + 1);
        i := i + 1;
      }
    }
  }

  predicate Ascending(ks: seq<nat>) {
    forall i, j :: 0 <= i < j < |ks| ==> ks[i] < ks[j]
  }

  function InsertOnce(k: nat, ks: seq<nat>): seq<nat> {
    if ks == [] then [k]
    else if k < ks[0] then [k] + ks
    else if k == ks[0] then ks
    else [ks[0]] + InsertOnce(k, ks[1..])
  }

  lemma {:induction false} InsertOnceSorts(k: nat, ks: seq<nat>)
    requires Ascending(ks)
    ensures Ascending(InsertOnce(k, ks)) && forall x :: x in InsertOnce(k, ks) <==> x == k || x in ks
  {
    if ks != [] && k > ks[0] {
      InsertOnceSorts(k, ks[1..]);
      var r := InsertOnce(k, ks[1..]);
      forall j | 0 <= j < |r| ensures ks[0] < r[j] {
        assert r[j] in r;
      }
    }
  }

  /** `sort_unstable` and `dedup` */
  function SortOnce(ks: seq<nat>): seq<nat> {
    if ks == [] then [] else InsertOnce(ks[0], SortOnce(ks[1..]))
  }

  lemma {:induction false} SortOnceSorts(ks: seq<nat>)
    ensures Ascending(SortOnce(ks)) && forall x :: x in SortOnce(ks) <==> x in ks
  {
    if ks != [] {
      SortOnceSorts(ks[1..]);
      InsertOnceSorts(ks[0], SortOnce(ks[1..]));
    }
  }

  lemma {:induction false} WithoutNone(s: Text, ks: set<nat>, i: nat, j: nat)
    requires i <= j <= |s| && forall k :: i <= k < j ==> k !in ks
    ensures Without(s, ks, i) == s[i..j] + Without(s, ks, j)
    decreases j - i
  {
    hide Without;
    if i < j {
      WithoutNone(s, ks, i + 1, j);
      assert s[i..j] == [s[i]] + s[i + 1..j];
      KeepsAt(s, ks, i);
      ConcatOne(s[i], s[i + 1..j], Without(s, ks, j));
    }
  }

  lemma KeepsAt(s: Text, ks: set<nat>, i: nat)
    requires i < |s|
    ensures Without(s, ks, i) == if i in ks then Without(s, ks, i + 1) else [s[i]] + Without(s, ks, i + 1)
  {}

  lemma ConcatOne(c: char, a: Text, b: Text)
    ensures [c] + (a + b) == [c] + a + b
  {}

  /** Rewriting one collected position. */
  lemma SpliceOne(s: Text, ks: set<nat>, cursor: nat, pos: nat)
    requires cursor <= pos && EscapedQuoteAt(s, pos) && pos in ks && pos + 1 !in ks
    requires forall k :: cursor <= k < pos ==> k !in ks
    ensures Without(s, ks, cursor) == s[cursor..pos] + [QUOTE] + Without(s, ks, pos + 2)
  {
    hide Without;
    WithoutNone(s, ks, cursor, pos);
    KeepsAt(s, ks, pos);
    KeepsAt(s, ks, pos + 1);
  }

  /** The splice. No position comes before the cursor, so nothing is ever skipped as an overlap. */
  method Splice(s: Text, ks: seq<nat>, ghost positions: set<nat>) returns (out: Text)
    requires Ascending(ks) && (forall k :: k in ks ==> EscapedQuoteAt(s, k)) && forall k :: k in ks <==> k in positions
    ensures out == Without(s, positions, 0)
  {
    hide Without;
    out := "";
    var cursor := 0;
    for n := 0 to |ks|
      invariant cursor <= |s| && out + Without(s, positions, cursor) == Without(s, positions, 0)
      invariant forall j :: 0 <= j < n ==> ks[j] < cursor
      invariant forall j :: n <= j < |ks| ==> cursor <= ks[j]
    {
      var pos := ks[n];
      assert cursor <= pos;
      assert pos in ks && EscapedQuoteAt(s, pos) && pos in positions;
      forall j | n < j < |ks| ensures pos + 2 <= ks[j] {
        assert ks[j] in ks && EscapedQuoteAt(s, ks[j]);
      }
      forall k | k in positions ensures k < cursor || k == pos || pos + 2 <= k {
        var j :| 0 <= j < |ks| && ks[j] == k;
      }
      SpliceOne(s, positions, cursor, pos);
      ghost var before := out;
      out := out + s[cursor..pos] + [QUOTE];
      assert before + (s[cursor..pos] + [QUOTE] + Without(s, positions, pos + 2))
             == out + Without(s, positions, pos + 2);
      cursor := pos + 2;
    }
    forall k | k in positions ensures k < cursor {
      var j :| 0 <= j < |ks| && ks[j] == k;
    }
    out := out + s[cursor..];
    WithoutNone(s, positions, cursor, |s|);
    WithoutEnd(s, positions);
  }

  lemma WithoutEnd(s: Text, ks: set<nat>)
    ensures Without(s, ks, |s|) == ""
  {}

  lemma {:induction false} WithoutLength(s: Text, ks: set<nat>, i: nat)
    requires i <= |s|
    ensures |Without(s, ks, i)| <= |s| - i
    ensures (exists k :: i <= k < |s| && k in ks) ==> |Without(s, ks, i)| < |s| - i
    decreases |s| - i
  {
    if i < |s| { WithoutLength(s, ks, i + 1); }
  }

  lemma CollectedIs(s: Text, found: seq<nat>)
    requires forall k: nat :: k in found <==>
               (EscapedQuoteAt(s, k) && CoveredBy(KV_PAIR, s, k))
               || (EscapedQuoteAt(s, k) && CoveredBy(CLOSE_THEN_KEY, s, k))
               || (EscapedQuoteAt(s, k) && CoveredBy(LAST_CLOSE, s, k))
    ensures forall k: nat :: k in found <==> k in Collected(s)
    ensures forall k :: k in found ==> EscapedQuoteAt(s, k)
  {
    hide CoveredBy;
  }

  lemma NothingEscaped(s: Text)
    requires !Contains(s, "\\\"")
    ensures Collected(s) == {}
  {
    hide CoveredBy;
    forall k: nat ensures !Structural(s, k) {
      assert EscapedQuoteAt(s, k) ==> OccursAt(s, "\\\"", k);
    }
  }

  method UnEscape(raw: Text) returns (r: Option<Text>)
    ensures r == UnEscapeStructuralQuotes(raw)
  {
    hide CoveredBy, Collected, Structural, SortOnce;
    if Find(raw, "\\\"").None? {
      NothingEscaped(raw);
      return None;
    }
    var found := CollectAll(KV_PAIR, raw, []);
    found := CollectAll(CLOSE_THEN_KEY, raw, found);
    found := CollectAll(LAST_CLOSE, raw, found);
    CollectedIs(raw, found);
    if found == [] {
      return None;
    }
    SortOnceSorts(found);
    var out := Splice(raw, SortOnce(found), Collected(raw));
    // A backslash is gone, so the rewritten text is never equal to the raw one.
    assert out != raw && Collected(raw) != {} by {
      assert found[0] in Collected(raw) && EscapedQuoteAt(raw, found[0]);
      WithoutLength(raw, Collected(raw), 0);
    }
    return Some(out);
  }

  // ---- When a second rewrite finds something ----

  /** The next character of the rewritten text. */
  lemma WithoutHead(s: Text, ks: set<nat>, i: nat)
    requires i < |s| && forall k :: k in ks ==> EscapedQuoteAt(s, k)
    ensures i !in ks ==> Without(s, ks, i) == [s[i]] + Without(s, ks, i + 1)
    ensures i in ks ==> i + 1 < |s| && Without(s, ks, i) == [QUOTE] + Without(s, ks, i + 2)
  {
    hide Without;
    KeepsAt(s, ks, i);
    if i in ks { KeepsAt(s, ks, i + 1); }
  }

  /** No collected backslash comes right after a backslash. */
  predicate Apart(s: Text, ks: set<nat>) {
    forall k :: k in ks && 0 < k <= |s| ==> s[k - 1] != BACKSLASH
  }

  lemma {:induction false} TrimOnRewritten(s: Text, ks: set<nat>, i: nat)
    requires i <= |s| && forall k :: k in ks ==> EscapedQuoteAt(s, k)
    ensures TrimStart(Without(s, ks, i)) == Without(s, ks, |s| - |TrimStart(s[i..])|)
    decreases |s| - i
  {
    hide Without;
    if i == |s| {
      WithoutEnd(s, ks);
    } else {
      WithoutHead(s, ks, i);
      assert s[i..][1..] == s[i + 1..];
      if IsSpace(s[i]) { TrimOnRewritten(s, ks, i + 1); }
    }
  }

  lemma {:induction false} KeyLengthIs(w: Text, rest: Text)
    requires (forall i :: 0 <= i < |w| ==> IsKeyChar(w[i])) && (rest == "" || !IsKeyChar(rest[0]))
    ensures KeyLength(w + rest) == |w|
  {
    if w == "" {
      assert w + rest == rest;
    } else {
      KeyLengthIs(w[1..], rest);
      assert (w + rest)[1..] == w[1..] + rest;
    }
  }

  /** The key that begins the raw text at `i` begins the rewritten text too. */
  lemma KeySame(s: Text, ks: set<nat>, i: nat)
    requires i <= |s| && forall k :: k in ks ==> EscapedQuoteAt(s, k)
    ensures var n := KeyLength(s[i..]); var t := Without(s, ks, i);
            i + n <= |s| && KeyLength(t) == n && n <= |t| && t[n..] == Without(s, ks, i + n) && (n > 0 ==> t[0] == s[i])
  {
    hide Without, IsKeyChar;
    var n := KeyLength(s[i..]);
    var w := s[i..i + n];
    assert w == s[i..][..n];
    forall k | i <= k < i + n ensures k !in ks {
      assert IsKeyChar(s[i..][k - i]);
      assert !IsKeyChar(BACKSLASH) by { NoKeyChar(); }
    }
    WithoutNone(s, ks, i, i + n);
    var rest := Without(s, ks, i + n);
    if i + n < |s| {
      assert s[i..][n] == s[i + n];
      WithoutHead(s, ks, i + n);
    } else {
      WithoutEnd(s, ks);
    }
    NoKeyChar();
    KeyLengthIs(w, rest);
  }

  lemma NoKeyChar()
    ensures !IsKeyChar(BACKSLASH) && !IsKeyChar(QUOTE)
  {}

  lemma QuoteIs(w: Text)
    ensures AfterAtom(Quote, [QUOTE] + w) == Some(w)
    ensures AfterAtom(Quote, [BACKSLASH] + ([QUOTE] + w)) == AfterAtom(EscapedQuote, [BACKSLASH] + ([QUOTE] + w))
            == Some(w)
  {
    assert ([BACKSLASH] + ([QUOTE] + w))[2..] == w;
  }

  lemma QuoteOnRewritten(s: Text, ks: set<nat>, i: nat)
    requires i <= |s| && forall k :: k in ks ==> EscapedQuoteAt(s, k)
    requires AfterAtom(Quote, s[i..]).Some?
    ensures AfterAtom(Quote, Without(s, ks, i)) == Some(Without(s, ks, |s| - |AfterAtom(Quote, s[i..]).value|))
  {
    hide Without;
    WithoutHead(s, ks, i);
    if EscapedQuoteStarts(s[i..]) {
      WithoutHead(s, ks, i + 1);
      QuoteIs(Without(s, ks, i + 2));
    } else {
      QuoteIs(Without(s, ks, i + 1));
    }
  }

  /** An atom that does not need a backslash reads the rewritten text as it reads the raw one. */
  lemma AtomOnRewritten(x: Atom, s: Text, ks: set<nat>, i: nat)
    requires i <= |s| && forall k :: k in ks ==> EscapedQuoteAt(s, k)
    requires x != EscapedQuote && AfterAtom(x, s[i..]).Some?
    ensures AfterAtom(x, Without(s, ks, i)) == Some(Without(s, ks, |s| - |AfterAtom(x, s[i..]).value|))
  {
    hide Without;
    if x == Spaces {
      TrimOnRewritten(s, ks, i);
    } else if x == Key {
      KeySame(s, ks, i);
    } else if x == Quote {
      QuoteOnRewritten(s, ks, i);
    } else {
      WithoutHead(s, ks, i);
    }
  }

  predicate NeedsBackslash(p: Pattern) {
    p.Cons? && (p.head == EscapedQuote || NeedsBackslash(p.tail))
  }

  lemma {:induction false} MatchOnRewritten(p: Pattern, s: Text, ks: set<nat>, i: nat)
    requires i <= |s| && forall k :: k in ks ==> EscapedQuoteAt(s, k)
    requires !NeedsBackslash(p) && AfterMatch(p, s[i..]).Some?
    ensures AfterMatch(p, Without(s, ks, i)) == Some(Without(s, ks, |s| - |AfterMatch(p, s[i..]).value|))
    decreases p
  {
    hide Without, AfterAtom;
    if p.Cons? {
      AtomOnRewritten(p.head, s, ks, i);
      var u := AfterAtom(p.head, s[i..]).value;
      var j := |s| - |u|;
      AtomSuffix(p.head, s[i..], j - i);
      assert s[i..][j - i..] == s[j..];
      assert u[0..] == u;
      MatchOnRewritten(p.tail, s, ks, j);
    } else {
      assert |s| - |s[i..]| == i;
    }
  }

  /** Conversely, when no collected backslash comes right after a backslash. */
  lemma AtomOnRaw(x: Atom, s: Text, ks: set<nat>, i: nat)
    requires i <= |s| && (forall k :: k in ks ==> EscapedQuoteAt(s, k)) && Apart(s, ks)
    requires AfterAtom(x, Without(s, ks, i)).Some?
    ensures AfterAtom(x, s[i..]).Some?
    ensures AfterAtom(x, Without(s, ks, i)) == Some(Without(s, ks, |s| - |AfterAtom(x, s[i..]).value|))
  {
    hide Without;
    if i == |s| {
      WithoutEnd(s, ks);
      assert Without(s, ks, i) == s[i..];
    } else {
      WithoutHead(s, ks, i);
      if x == Key {
        KeySame(s, ks, i);
      } else if x == Spaces {
        TrimOnRewritten(s, ks, i);
      } else if x == Quote || x == EscapedQuote {
        QuoteOnRaw(x, s, ks, i);
      }
    }
  }

  lemma QuoteOnRaw(x: Atom, s: Text, ks: set<nat>, i: nat)
    requires i < |s| && (forall k :: k in ks ==> EscapedQuoteAt(s, k)) && Apart(s, ks)
    requires (x == Quote || x == EscapedQuote) && AfterAtom(x, Without(s, ks, i)).Some?
    ensures AfterAtom(x, s[i..]).Some?
    ensures AfterAtom(x, Without(s, ks, i)) == Some(Without(s, ks, |s| - |AfterAtom(x, s[i..]).value|))
  {
    hide Without;
    WithoutHead(s, ks, i);
    if i in ks {
      QuoteIs(Without(s, ks, i + 2));
    } else if s[i] == QUOTE {
      QuoteIs(Without(s, ks, i + 1));
    } else if i + 1 < |s| {
      WithoutHead(s, ks, i + 1);
      QuoteIs(Without(s, ks, i + 2));
    } else {
      WithoutEnd(s, ks);
    }
  }

  lemma {:induction false} MatchOnRaw(p: Pattern, s: Text, ks: set<nat>, i: nat)
    requires i <= |s| && (forall k :: k in ks ==> EscapedQuoteAt(s, k)) && Apart(s, ks)
    requires AfterMatch(p, Without(s, ks, i)).Some?
    ensures AfterMatch(p, s[i..]).Some?
    ensures AfterMatch(p, Without(s, ks, i)) == Some(Without(s, ks, |s| - |AfterMatch(p, s[i..]).value|))
    decreases p
  {
    hide Without, AfterAtom, Apart;
    if p.Cons? {
      AtomOnRaw(p.head, s, ks, i);
      var u := AfterAtom(p.head, s[i..]).value;
      var j := |s| - |u|;
      AtomSuffix(p.head, s[i..], j - i);
      assert s[i..][j - i..] == s[j..];
      assert u[0..] == u;
      MatchOnRaw(p.tail, s, ks, j);
    } else {
      assert |s| - |s[i..]| == i;
    }
  }

  /** Where a position of the rewritten text comes from. */
  lemma {:induction false} Origin(s: Text, ks: set<nat>, i: nat, n: nat) returns (m: nat)
    requires i <= |s| && n < |Without(s, ks, i)|
    ensures i <= m < |s| && m !in ks && Without(s, ks, i)[n..] == Without(s, ks, m)
    decreases |s| - i
  {
    hide Without;
    if i == |s| { WithoutEnd(s, ks); }
    KeepsAt(s, ks, i);
    if i in ks {
      m := Origin(s, ks, i + 1, n);
    } else if n == 0 {
      m := i;
    } else {
      m := Origin(s, ks, i + 1, n - 1);
      assert Without(s, ks, i)[n..] == Without(s, ks, i + 1)[n - 1..];
    }
  }

  lemma {:induction false} WithoutShrinks(s: Text, ks: set<nat>, i: nat, j: nat)
    requires i <= j <= |s|
    ensures var t, u := Without(s, ks, i), Without(s, ks, j); |u| <= |t| <= |u| + (j - i) && t[|t| - |u|..] == u
    decreases j - i
  {
    hide Without;
    if i < j {
      WithoutShrinks(s, ks, i + 1, j);
      KeepsAt(s, ks, i);
    }
  }

  lemma CollectedEscapes(s: Text)
    ensures forall k :: k in Collected(s) ==> EscapedQuoteAt(s, k)
  {
    hide CoveredBy;
  }

  /** A match in the rewritten text that covers an escaped quote comes from a backslash that was not collected. */
  lemma UncollectedOrigin(p: Pattern, s: Text, ks: set<nat>, k: nat) returns (m: nat)
    requires (forall k :: k in ks ==> EscapedQuoteAt(s, k)) && Apart(s, ks)
    requires var t := Without(s, ks, 0); EscapedQuoteAt(t, k) && CoveredBy(p, t, k)
    ensures m !in ks && m < |s| && EscapedQuoteAt(s, m) && CoveredBy(p, s, m)
  {
    hide Without, AfterMatch, Apart;
    var t := Without(s, ks, 0);
    var a: nat :| a <= k && MatchEnd(p, t, a).Some? && k + 1 < MatchEnd(p, t, a).value;
    var i := Origin(s, ks, 0, a);
    MatchOnRaw(p, s, ks, i);
    var j := |s| - |AfterMatch(p, s[i..]).value|;
    assert t[a..][k - a..] == t[k..];
    m := Origin(s, ks, i, k - a);
    assert MatchEnd(p, s, i) == Some(j);
    UncollectedEscape(s, ks, m, t[k..]);
    if j <= m { WithoutShrinks(s, ks, j, m); } else { WithoutShrinks(s, ks, m, j); }
    assert m + 1 < j;
  }

  lemma UncollectedEscape(s: Text, ks: set<nat>, m: nat, t: Text)
    requires (forall k :: k in ks ==> EscapedQuoteAt(s, k)) && Apart(s, ks)
    requires m < |s| && m !in ks && t == Without(s, ks, m) && EscapedQuoteStarts(t)
    ensures EscapedQuoteAt(s, m)
  {
    hide Without;
    WithoutHead(s, ks, m);
    if m + 1 < |s| { WithoutHead(s, ks, m + 1); } else { WithoutEnd(s, ks); }
  }

  /** Inside a match a backslash is always followed by a quote. */
  lemma {:induction false} BackslashBeforeQuote(p: Pattern, t: Text, n: nat)
    requires AfterMatch(p, t).Some? && n < |t| - |AfterMatch(p, t).value| && t[n] == BACKSLASH
    ensures n + 1 < |t| && t[n + 1] == QUOTE
    decreases p
  {
    if p.Cons? {
      var u := AfterAtom(p.head, t).value;
      var m := |t| - |u|;
      if n < m {
        AtomReads(p.head, t, n);
        assert p.head == Quote || p.head == EscapedQuote;
      } else {
        AtomSuffix(p.head, t, n);
        hide AfterAtom;
        BackslashBeforeQuote(p.tail, u, n - m);
      }
    }
  }

  /** A match that covers a backslash after a backslash begins at it. */
  lemma DoubledStart(p: Pattern, s: Text, a: nat, k: nat)
    requires 0 < k && EscapedQuoteAt(s, k) && s[k - 1] == BACKSLASH && a <= k
    requires AfterMatch(p, s[a..]).Some? && k + 1 < |s| - |AfterMatch(p, s[a..]).value|
    ensures a == k
  {
    hide AfterMatch;
    if a < k {
      BackslashBeforeQuote(p, s[a..], k - 1 - a);
    }
  }

  lemma KvStart(t: Text)
    requires AfterMatch(KV_PAIR, t).Some?
    ensures t != "" && t[0] != BACKSLASH
  {
    AtomFirst(Delim, KV_TAIL, t);
  }

  lemma DoubledStartsMatch(p: Pattern, s: Text, k: nat)
    requires IsPattern(p) && 0 < k && EscapedQuoteAt(s, k) && s[k - 1] == BACKSLASH && CoveredBy(p, s, k)
    ensures (p == CLOSE_THEN_KEY || p == LAST_CLOSE) && AfterMatch(p, s[k..]).Some?
  {
    hide AfterMatch, KV_PAIR, CLOSE_THEN_KEY, LAST_CLOSE;
    var a: nat :| a <= k && MatchEnd(p, s, a).Some? && k + 1 < MatchEnd(p, s, a).value;
    DoubledStart(p, s, a, k);
    if p == KV_PAIR { KvStart(s[k..]); }
  }

  lemma MatchAfterQuote(p: Pattern, t: Text, w: Text)
    requires p == CLOSE_THEN_KEY || p == LAST_CLOSE
    requires t == [BACKSLASH, QUOTE] + w
    ensures AfterMatch(p, t) == AfterMatch(p.tail, w)
  {
    assert t == [BACKSLASH] + ([QUOTE] + w);
    QuoteIs(w);
    hide AfterAtom;
  }

  lemma DoubledTail(p: Pattern, s: Text, k: nat)
    requires IsPattern(p) && 0 < k && EscapedQuoteAt(s, k) && s[k - 1] == BACKSLASH && CoveredBy(p, s, k)
    ensures (p == CLOSE_THEN_KEY || p == LAST_CLOSE) && AfterMatch(p.tail, s[k + 2..]).Some?
  {
    hide AfterMatch, CoveredBy, KV_PAIR, CLOSE_THEN_KEY, LAST_CLOSE, IsPattern;
    DoubledStartsMatch(p, s, k);
    assert s[k..] == [BACKSLASH, QUOTE] + s[k + 2..];
    MatchAfterQuote(p, s[k..], s[k + 2..]);
  }

  lemma FoundAt(p: Pattern, t: Text, a: nat, w: Text)
    requires p == CLOSE_THEN_KEY || p == LAST_CLOSE
    requires a <= |t| && t[a..] == [BACKSLASH, QUOTE] + w && AfterMatch(p.tail, w).Some?
    ensures a in Collected(t) && CoveredBy(p, t, a)
  {
    MatchAfterQuote(p, t[a..], w);
    hide AfterMatch, KV_PAIR, CLOSE_THEN_KEY, LAST_CLOSE;
    assert |w| == |t| - a - 2;
    assert t[a] == t[a..][0] && t[a + 1] == t[a..][1];
    assert CoveredBy(p, t, a) by {
      assert MatchEnd(p, t, a) == Some(|t| - |AfterMatch(p.tail, w).value|);
    }
    hide CoveredBy;
  }

  lemma FoundAfter(p: Pattern, q: Text, w: Text)
    requires p == CLOSE_THEN_KEY || p == LAST_CLOSE
    requires AfterMatch(p.tail, w).Some?
    ensures |q| in Collected(q + ([BACKSLASH, QUOTE] + w))
  {
    hide AfterMatch, Collected, CoveredBy, KV_PAIR, CLOSE_THEN_KEY, LAST_CLOSE;
    var r := [BACKSLASH, QUOTE] + w;
    assert (q + r)[|q|..] == r;
    FoundAt(p, q + r, |q|, w);
  }

  lemma WithoutPrefix(s: Text, ks: set<nat>, j: nat) returns (q: Text)
    requires j <= |s|
    ensures Without(s, ks, 0) == q + Without(s, ks, j)
  {
    hide Without;
    WithoutShrinks(s, ks, 0, j);
    var t := Without(s, ks, 0);
    q := t[..|t| - |Without(s, ks, j)|];
  }

  lemma FoundAgainIn(p: Pattern, s: Text, ks: set<nat>, k: nat)
    requires p == CLOSE_THEN_KEY || p == LAST_CLOSE
    requires 0 < k && k + 2 <= |s| && k in ks && s[k - 1] == BACKSLASH && forall j :: j in ks ==> EscapedQuoteAt(s, j)
    requires AfterMatch(p.tail, s[k + 2..]).Some?
    ensures Collected(Without(s, ks, 0)) != {}
  {
    TailNeedsNone(p);
    hide Without, AfterMatch, Collected, CoveredBy, KV_PAIR, CLOSE_THEN_KEY, LAST_CLOSE;
    MatchOnRewritten(p.tail, s, ks, k + 2);
    DoubledText(s, ks, k);
    var q := WithoutPrefix(s, ks, k - 1);
    FoundAfter(p, q, Without(s, ks, k + 2));
  }

  /** A collected backslash after a backslash leaves another escaped quote to collect. */
  lemma DoubledIsFoundAgain(p: Pattern, s: Text, k: nat)
    requires IsPattern(p) && 0 < k && k in Collected(s) && s[k - 1] == BACKSLASH && CoveredBy(p, s, k)
    ensures Collected(Rewritten(s)) != {}
  {
    CollectedEscapes(s);
    hide Without, AfterMatch, Collected, CoveredBy, KV_PAIR, CLOSE_THEN_KEY, LAST_CLOSE;
    assert EscapedQuoteAt(s, k);
    DoubledTail(p, s, k);
    FoundAgainIn(p, s, Collected(s), k);
  }

  lemma TailNeedsNone(p: Pattern)
    requires p == CLOSE_THEN_KEY || p == LAST_CLOSE
    ensures p.Cons? && !NeedsBackslash(p.tail)
  {}

  /** The rewritten text from before a collected backslash that comes after a backslash. */
  lemma DoubledText(s: Text, ks: set<nat>, k: nat)
    requires 0 < k <= |s| && k in ks && s[k - 1] == BACKSLASH && forall j :: j in ks ==> EscapedQuoteAt(s, j)
    ensures k + 2 <= |s| && Without(s, ks, k - 1) == [BACKSLASH, QUOTE] + Without(s, ks, k + 2)
  {
    hide Without;
    assert EscapedQuoteAt(s, k) && !EscapedQuoteAt(s, k - 1);
    WithoutHead(s, ks, k);
    WithoutHead(s, ks, k - 1);
  }

  /** Two backslashes and a quote, and after them a comma and a key with its colon, or a closing brace. */
  predicate DoubledAt(s: Text, k: nat) {
    && 0 < k && EscapedQuoteAt(s, k) && s[k - 1] == BACKSLASH
    && (AfterMatch(CLOSE_THEN_KEY.tail, s[k + 2..]).Some? || AfterMatch(LAST_CLOSE.tail, s[k + 2..]).Some?)
  }

  predicate HasDoubled(s: Text) {
    exists k :: 0 < k < |s| && DoubledAt(s, k)
  }

  /** The backslashes collected stand apart from others exactly when no such place exists. */
  lemma ApartIsNoDoubled(s: Text)
    ensures Apart(s, Collected(s)) <==> !HasDoubled(s)
  {
    CollectedEscapes(s);
    hide AfterMatch, CoveredBy, KV_PAIR, CLOSE_THEN_KEY, LAST_CLOSE, DoubledAt;
    if !Apart(s, Collected(s)) {
      var k :| k in Collected(s) && 0 < k <= |s| && s[k - 1] == BACKSLASH;
      var p := if CoveredBy(KV_PAIR, s, k) then KV_PAIR else if CoveredBy(CLOSE_THEN_KEY, s, k) then CLOSE_THEN_KEY
          else LAST_CLOSE;
      DoubledTailAt(p, s, k);
    }
    if HasDoubled(s) {
      var k :| 0 < k < |s| && DoubledAt(s, k);
      DoubledIsCollected(s, k);
    }
  }

  lemma DoubledTailAt(p: Pattern, s: Text, k: nat)
    requires IsPattern(p) && 0 < k && EscapedQuoteAt(s, k) && s[k - 1] == BACKSLASH && CoveredBy(p, s, k)
    ensures DoubledAt(s, k)
  {
    DoubledTail(p, s, k);
    hide AfterMatch, CoveredBy, KV_PAIR;
  }

  lemma DoubledIsCollected(s: Text, k: nat)
    requires k < |s| && DoubledAt(s, k)
    ensures k in Collected(s) && k > 0 && s[k - 1] == BACKSLASH
  {
    hide AfterMatch, Collected, CoveredBy;
    var w := s[k + 2..];
    assert s[k..] == [BACKSLASH, QUOTE] + w;
    if AfterMatch(CLOSE_THEN_KEY.tail, w).Some? {
      FoundAt(CLOSE_THEN_KEY, s, k, w);
    } else {
      FoundAt(LAST_CLOSE, s, k, w);
    }
  }

  /**
   * Rewriting twice is rewriting once, exactly unless the text holds two backslashes and a quote
   * where a value closes.
   */
  lemma SecondRewrite(s: Text)
    ensures UnEscapeStructuralQuotes(Rewritten(s)) == None <==> !HasDoubled(s)
  {
    ApartDecides(s);
    ApartIsNoDoubled(s);
    hide HasDoubled, Apart, Collected, Without;
  }

  lemma ApartDecides(s: Text)
    ensures UnEscapeStructuralQuotes(Rewritten(s)) == None <==> Apart(s, Collected(s))
  {
    var ks, t := Collected(s), Rewritten(s);
    CollectedEscapes(s);
    hide Without, AfterMatch, CoveredBy;
    if Apart(s, ks) {
      forall k: nat ensures !Structural(t, k) {
        NotFoundAgain(s, k);
      }
    } else {
      var k :| k in ks && 0 < k <= |s| && s[k - 1] == BACKSLASH;
      var p := if CoveredBy(KV_PAIR, s, k) then KV_PAIR else if CoveredBy(CLOSE_THEN_KEY, s, k) then CLOSE_THEN_KEY
          else LAST_CLOSE;
      DoubledIsFoundAgain(p, s, k);
    }
  }

  lemma NotFoundAgain(s: Text, k: nat)
    requires Apart(s, Collected(s))
    ensures !Structural(Rewritten(s), k)
  {
    var ks, t := Collected(s), Rewritten(s);
    CollectedEscapes(s);
    hide Without, AfterMatch, CoveredBy;
    if Structural(t, k) {
      var p := if CoveredBy(KV_PAIR, t, k) then KV_PAIR else if CoveredBy(CLOSE_THEN_KEY, t, k) then CLOSE_THEN_KEY
          else LAST_CLOSE;
      var m := UncollectedOrigin(p, s, ks, k);
    }
  }

  /** Without two adjacent backslashes a second rewrite finds nothing. */
  lemma RewriteIdempotent(s: Text)
    requires forall i :: 0 < i < |s| ==> s[i - 1] != BACKSLASH || s[i] != BACKSLASH
    ensures UnEscapeStructuralQuotes(Rewritten(s)) == None
  {
    ApartDecides(s);
    CollectedEscapes(s);
    hide Collected;
  }

  /** The text `\\"}` is rewritten once more on a second pass. */
  lemma RewriteTwiceDiffers()
    ensures var s := [BACKSLASH, BACKSLASH, QUOTE, '}'];
            && UnEscapeStructuralQuotes(s) == Some([BACKSLASH, QUOTE, '}'])
            && UnEscapeStructuralQuotes([BACKSLASH, QUOTE, '}']).Some?
  {
    hide AfterMatch, Collected, Without, CoveredBy, LAST_CLOSE, CLOSE_THEN_KEY;
    var s := [BACKSLASH, BACKSLASH, QUOTE, '}'];
    var ks := Collected(s);
    CollectedEscapes(s);
    BraceCloses();
    assert s[1..] == [BACKSLASH, QUOTE] + "}";
    FoundAt(LAST_CLOSE, s, 1, "}");
    DoubledIsFoundAgain(LAST_CLOSE, s, 1);
    KeepsAt(s, ks, 0);
    KeepsAt(s, ks, 1);
    assert !EscapedQuoteAt(s, 0) && !EscapedQuoteAt(s, 2) && !EscapedQuoteAt(s, 3);
    KeepsAt(s, ks, 2);
    KeepsAt(s, ks, 3);
    WithoutEnd(s, ks);
    assert Rewritten(s) == [BACKSLASH, QUOTE, '}'];
  }

  lemma BraceCloses()
    ensures AfterMatch(LAST_CLOSE.tail, "}") == Some("")
  {
    assert "}"[1..] == "";
  }

  // ---- Structural quotes stand next to delimiters ----

  /** Only white space lies between a `{`, `,` or `:` and position `k`. */
  predicate DelimBefore(s: Text, k: nat)
    requires k <= |s|
  {
    exists j :: 0 <= j < k && (s[j] == '{' || s[j] == ',' || s[j] == ':') && forall m :: j < m < k ==> IsSpace(s[m])
  }

  /** The next solid character from position `k` on is `,`, `:` or `}`. */
  predicate DelimAfter(s: Text, k: nat)
    requires k <= |s|
  {
    var t := TrimStart(s[k..]);
    t != "" && (t[0] == ',' || t[0] == ':' || t[0] == '}')
  }

  predicate DelimFollows(p: Pattern) {
    p.Cons? && p.head == Spaces && p.tail.Cons? && (p.tail.head == Colon || p.tail.head == Comma
        || p.tail.head == Close)
  }

  /** Every quote of the pattern has a delimiter before it (`d`: one comes before the pattern) or after it. */
  predicate Framed(p: Pattern, d: bool) {
    match p
    case Nil => true
    case Cons(x, q) =>
      match x
      case Delim => Framed(q, true)
      case Colon => Framed(q, true)
      case Comma => Framed(q, true)
      case Spaces => Framed(q, d)
      case Quote => (d || DelimFollows(q)) && Framed(q, false)
      case EscapedQuote => (d || DelimFollows(q)) && Framed(q, false)
      case _ => Framed(q, false)
  }

  lemma PatternsFramed()
    ensures Framed(KV_PAIR, false) && Framed(CLOSE_THEN_KEY, false) && Framed(LAST_CLOSE, false)
  {}

  /** What an atom leaves behind for the next one. */
  lemma DelimCarries(x: Atom, s: Text, i: nat, j: nat, d: bool)
    requires i <= j <= |s| && AfterAtom(x, s[i..]) == Some(s[j..]) && (d ==> DelimBefore(s, i))
    ensures x == Delim || x == Colon || x == Comma || (x == Spaces && d) ==> DelimBefore(s, j)
  {
    if x == Spaces && d {
      forall m | i <= m < j ensures IsSpace(s[m]) {
        TrimReadsSpace(s[i..], m - i);
      }
    } else if x == Delim || x == Colon || x == Comma {
      assert s[i..][0] == s[i] && j == i + 1;
    }
  }

  lemma FollowsIsDelim(q: Pattern, s: Text, j: nat)
    requires j <= |s| && DelimFollows(q) && AfterMatch(q, s[j..]).Some?
    ensures DelimAfter(s, j)
  {
    var t := s[j..];
    AtomFirst(Spaces, q.tail, t);
    SpacesIs(t);
    AtomFirst(q.tail.head, q.tail.tail, TrimStart(t));
    hide TrimStart;
  }

  lemma {:induction false} QuotesFramed(p: Pattern, s: Text, i: nat, k: nat, d: bool)
    requires i <= k && Framed(p, d) && (d && i <= |s| ==> DelimBefore(s, i))
    requires i <= |s| && AfterMatch(p, s[i..]).Some? && k + 1 < |s| - |AfterMatch(p, s[i..]).value|
             && EscapedQuoteAt(s, k)
    ensures DelimBefore(s, k) || DelimAfter(s, k + 2)
    decreases p
  {
    if p.Cons? {
      var x, q := p.head, p.tail;
      var u := AfterAtom(x, s[i..]).value;
      var j := |s| - |u|;
      AtomSuffix(x, s[i..], j - i);
      assert u == s[j..];
      if k < j {
        InQuoteAtom(x, s, i, j, k);
        if !d { FollowsIsDelim(q, s, j); }
      } else {
        DelimCarries(x, s, i, j, d);
        hide AfterAtom, DelimBefore, DelimAfter;
        QuotesFramed(q, s, j, k, x == Delim || x == Colon || x == Comma || (x == Spaces && d));
      }
    }
  }

  lemma InQuoteAtom(x: Atom, s: Text, i: nat, j: nat, k: nat)
    requires i <= k < j <= |s| && AfterAtom(x, s[i..]) == Some(s[j..]) && EscapedQuoteAt(s, k)
    ensures (x == Quote || x == EscapedQuote) && k == i && j == k + 2
  {
    AtomReads(x, s[i..], k - i);
    assert s[i..][k - i] == BACKSLASH;
    assert s[i..][0] == s[i];
  }

  /**
   * Only quotes next to a delimiter are ever rewritten: before the backslash, or after the quote,
   * comes a delimiter, with nothing but white space between. Escaped quotes inside content stay.
   */
  lemma CollectedStandByDelimiters(s: Text, k: nat)
    requires k in Collected(s)
    ensures k + 2 <= |s| && (DelimBefore(s, k) || DelimAfter(s, k + 2))
  {
    var p := if CoveredBy(KV_PAIR, s, k) then KV_PAIR else if CoveredBy(CLOSE_THEN_KEY, s, k) then CLOSE_THEN_KEY
        else LAST_CLOSE;
    PatternsFramed();
    hide AfterMatch, Framed, DelimBefore, DelimAfter, KV_PAIR, CLOSE_THEN_KEY, LAST_CLOSE;
    var a: nat :| a <= k && MatchEnd(p, s, a).Some? && k + 1 < MatchEnd(p, s, a).value;
    QuotesFramed(p, s, a, k, false);
  }
}
