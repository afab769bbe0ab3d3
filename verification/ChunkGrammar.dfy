/** The chunk lines the machine accepts are exactly those of the grammar: hexadecimal digits, any number of
    extensions ";name" or ";name=value" of tokens, and a line end with or without the carriage return
    (section 7.1.1 of RFC 9112 gives the extensions; the bare line feed is the program's own).
 */
module ChunkGrammar {
  import opened Bits
  import opened ChunkLines
  import ChunkEncoding
  import opened Options

  datatype Ext = Ext(name: seq<u8>, value: Option<seq<u8>>)

  predicate IsHexes(s: seq<u8>) {
    s != [] && forall i :: 0 <= i < |s| ==> IsHex(s[i])
  }

  predicate Token(s: seq<u8>) {
    s != [] && forall i :: 0 <= i < |s| ==> IsToken(s[i])
  }

  predicate ExtOk(e: Ext) {
    Token(e.name) && (e.value.Some? ==> Token(e.value.value))
  }

  predicate ExtsOk(es: seq<Ext>) {
    forall i :: 0 <= i < |es| ==> ExtOk(es[i])
  }

  function ExtText(e: Ext): seq<u8> {
    [SEMICOLON] + e.name + if e.value.Some? then [EQUALS] + e.value.value else []
  }

  function ExtsText(es: seq<Ext>): seq<u8> {
    if es == [] then [] else ExtsText(es[..|es| - 1]) + ExtText(es[|es| - 1])
  }

  function End(cr: bool): seq<u8> {
    if cr then [CR, LF] else [LF]
  }

  function LineText(digits: seq<u8>, es: seq<Ext>, cr: bool): seq<u8> {
    digits + ExtsText(es) + End(cr)
  }

  // ---- The machine over parts of a line ----

  function Fold(p: Phase, t: seq<u8>): Phase {
    if t == [] then p else Next(Fold(p, t[..|t| - 1]), t[|t| - 1])
  }

  lemma {:induction false} FoldConcat(p: Phase, a: seq<u8>, b: seq<u8>)
    ensures Fold(p, a + b) == Fold(Fold(p, a), b)
    decreases |b|
  {
    if b == [] {
      assert a + b == a;
    } else {
      FoldConcat(p, a, b[..|b| - 1]);
      assert (a + b)[..|a + b| - 1] == a + b[..|b| - 1];
    }
  }

  lemma {:induction false} FoldIsPhase(s: seq<u8>, n: nat)
    requires n <= |s|
    ensures PhaseAt(s, n) == Fold(Begin, s[..n])
  {
    if n > 0 {
      FoldIsPhase(s, n - 1);
      assert s[..n][..n - 1] == s[..n - 1];
    } else {
      assert s[..0] == [];
    }
  }

  lemma {:induction false} FoldHexes(digits: seq<u8>)
    requires IsHexes(digits)
    ensures Fold(Begin, digits) == Size
  {
    var n := |digits| - 1;
    if n == 0 {
      assert digits[..0] == [];
    } else {
      FoldHexes(digits[..n]);
    }
  }

  lemma {:induction false} FoldToken(p: Phase, t: seq<u8>)
    requires Token(t) && (p == NameStart || p == ValueStart)
    ensures Fold(p, t) == if p == NameStart then Name else Value
  {
    var n := |t| - 1;
    if n == 0 {
      assert t[..0] == [];
    } else {
      FoldToken(p, t[..n]);
    }
  }

  /** Between two parts of a line. */
  predicate Open(p: Phase) {
    p == Size || p == Name || p == Value
  }

  lemma FoldOne(p: Phase, c: u8)
    ensures Fold(p, [c]) == Next(p, c)
  {
    assert [c][..0] == [];
  }

  lemma FoldExt(p: Phase, e: Ext)
    requires Open(p) && ExtOk(e)
    ensures Open(Fold(p, ExtText(e)))
  {
    FoldOne(p, SEMICOLON);
    FoldConcat(p, [SEMICOLON], e.name);
    FoldToken(NameStart, e.name);
    var named := [SEMICOLON] + e.name;
    if e.value.Some? {
      FoldOne(Name, EQUALS);
      FoldConcat(p, named, [EQUALS] + e.value.value);
      FoldConcat(Name, [EQUALS], e.value.value);
      FoldToken(ValueStart, e.value.value);
    } else {
      assert ExtText(e) == named;
    }
  }

  lemma {:induction false} FoldExts(p: Phase, es: seq<Ext>)
    requires Open(p) && ExtsOk(es)
    ensures Open(Fold(p, ExtsText(es)))
  {
    if es != [] {
      var n := |es| - 1;
      FoldExts(p, es[..n]);
      FoldConcat(p, ExtsText(es[..n]), ExtText(es[n]));
      FoldExt(Fold(p, ExtsText(es[..n])), es[n]);
    }
  }

  /** A machine that has stopped stays where it is. */
  lemma {:induction false} StaysStopped(s: seq<u8>, i: nat, n: nat)
    requires i <= n <= |s| && Stopped(PhaseAt(s, i))
    ensures PhaseAt(s, n) == PhaseAt(s, i)
  {
    if i < n {
      StaysStopped(s, i, n - 1);
    }
  }

  lemma {:induction false} ExtsStart(es: seq<Ext>)
    ensures es != [] ==> ExtsText(es) != [] && ExtsText(es)[0] == SEMICOLON
  {
    if |es| > 1 {
      ExtsStart(es[..|es| - 1]);
    } else if |es| == 1 {
      assert ExtsText(es[..0]) == [];
    }
  }

  lemma EndRuns(s: seq<u8>, b: nat, cr: bool)
    requires b <= |s| && Open(PhaseAt(s, b)) && s[b..] == End(cr)
    ensures PhaseAt(s, |s|) == Done && !Stopped(PhaseAt(s, |s| - 1))
  {
    assert s[b] == s[b..][0];
    assert PhaseAt(s, b + 1) == LineEnd(s[b]);
    if cr {
      assert s[b + 1] == s[b..][1];
      assert PhaseAt(s, b + 2) == Next(PhaseAt(s, b + 1), LF);
    }
  }

  /** Where a line of the grammar leads the machine: to Done with the last byte, and not before. */
  lemma LineRuns(digits: seq<u8>, es: seq<Ext>, cr: bool)
    requires IsHexes(digits) && ExtsOk(es)
    ensures var s := LineText(digits, es, cr);
      PhaseAt(s, |s|) == Done && !Stopped(PhaseAt(s, |s| - 1))
  {
    var s := LineText(digits, es, cr);
    var body := digits + ExtsText(es);
    FoldHexes(digits);
    FoldConcat(Begin, digits, ExtsText(es));
    FoldExts(Size, es);
    FoldIsPhase(s, |body|);
    assert s[..|body|] == body;
    assert s[|body|..] == End(cr);
    EndRuns(s, |body|, cr);
  }

  /** The token characters are those of section 5.6.2 of RFC 9110: letters, digits and fifteen others. */
  lemma TokenIs(c: u8)
    ensures IsToken(c) <==>
      || 97 <= c <= 122 || 65 <= c <= 90 || 48 <= c <= 57
      || c in {33, 35, 36, 37, 38, 39, 42, 43, 45, 46, 94, 95, 96, 124, 126}
  {
  }

  /** Every line of the grammar is accepted, with the size its digits say, in whatever case they are. */
  lemma SpelledIsAccepted(digits: seq<u8>, ds: seq<nat>, es: seq<Ext>, cr: bool)
    requires ChunkEncoding.Spelling(digits, ds) && ExtsOk(es)
    ensures var text := LineText(digits, es, cr); ParseLine(text) == Line(ChunkEncoding.Numeral(ds), |text|)
  {
    ChunkEncoding.SpelledValue(digits, ds);
    GrammarIsAccepted(digits, es, cr);
  }

  /** Every line of the grammar is accepted, with the size its digits say. */
  lemma GrammarIsAccepted(digits: seq<u8>, es: seq<Ext>, cr: bool)
    requires IsHexes(digits) && ExtsOk(es)
    ensures ParseLine(LineText(digits, es, cr)) == Line(HexValue(digits), |LineText(digits, es, cr)|)
  {
    var s := LineText(digits, es, cr);
    LineRuns(digits, es, cr);
    forall i | 0 <= i < |s| ensures !Stopped(PhaseAt(s, i)) {
      if Stopped(PhaseAt(s, i)) {
        StaysStopped(s, i, |s| - 1);
      }
    }
    ExtentIs(s, 0, |s|);
    ExtsStart(es);
    var d: nat := |digits|;
    assert s[d] == if es == [] then End(cr)[0] else SEMICOLON;
    ChunkEncoding.DigitsEnd(s, 0, d);
    assert s[..d] == digits;
  }

  // ---- What the machine has seen ----

  /** The parts of what was read so far; name and value are of the extension being read. */
  datatype Parts = Parts(digits: seq<u8>, es: seq<Ext>, name: seq<u8>, value: seq<u8>)

  predicate Inside(p: Phase) {
    p == Size || p == NameStart || p == Name || p == ValueStart || p == Value
  }

  /** What the parts come to in a phase. */
  function Text(p: Phase, x: Parts): seq<u8> {
    match p
    case NameStart => x.digits + ExtsText(x.es) + [SEMICOLON]
    case Name => x.digits + ExtsText(x.es) + [SEMICOLON] + x.name
    case ValueStart => x.digits + ExtsText(x.es) + [SEMICOLON] + x.name + [EQUALS]
    case Value => x.digits + ExtsText(x.es) + [SEMICOLON] + x.name + [EQUALS] + x.value
    case _ => x.digits
  }

  predicate PartsOk(p: Phase, x: Parts) {
    && IsHexes(x.digits) && ExtsOk(x.es) && (p == Size ==> x.es == [])
    && (p == Name || p == ValueStart || p == Value ==> Token(x.name))
    && (p == Value ==> Token(x.value))
  }

  /** Between two parts, the extension being read is complete. */
  lemma Close(p: Phase, x: Parts) returns (all: seq<Ext>)
    requires Open(p) && PartsOk(p, x)
    ensures ExtsOk(all) && Text(p, x) == x.digits + ExtsText(all)
  {
    all := x.es;
    if p != Size {
      var e := Ext(x.name, if p == Name then None else Some(x.value));
      all := x.es + [e];
      assert all[..|all| - 1] == x.es;
      assert ExtsText(all) == ExtsText(x.es) + ExtText(e);
      assert x.digits + (ExtsText(x.es) + ExtText(e)) == x.digits + ExtsText(x.es) + ExtText(e);
    } else {
      assert ExtsText([]) == [];
    }
  }

  /** One byte more, inside a line. */
  lemma OneMore(p: Phase, c: u8, x: Parts) returns (y: Parts)
    requires Inside(p) && Inside(Next(p, c)) && PartsOk(p, x)
    ensures PartsOk(Next(p, c), y) && Text(Next(p, c), y) == Text(p, x) + [c]
  {
    y := x;
    match Next(p, c)
    case Size => y := x.(digits := x.digits + [c]);
    case NameStart =>
      var all := Close(p, x);
      y := x.(es := all);
    case Name => y := x.(name := if p == NameStart then [c] else x.name + [c]);
    case ValueStart =>
    case Value => y := x.(value := if p == ValueStart then [c] else x.value + [c]);
  }

  lemma {:induction false} Seen(s: seq<u8>, n: nat) returns (x: Parts)
    requires 0 < n <= |s| && Inside(PhaseAt(s, n))
    ensures PartsOk(PhaseAt(s, n), x) && s[..n] == Text(PhaseAt(s, n), x)
  {
    var c := s[n - 1];
    assert s[..n] == s[..n - 1] + [c];
    if n == 1 {
      assert PhaseAt(s, 0) == Begin && s[..0] == [];
      x := Parts([c], [], [], []);
    } else {
      SizeIsDigits(s, n - 1);
      x := Seen(s, n - 1);
      x := OneMore(PhaseAt(s, n - 1), c, x);
    }
  }

  /** How an accepted line ends. */
  lemma EndSeen(s: seq<u8>) returns (m: nat, cr: bool)
    requires s != [] && PhaseAt(s, |s|) == Done && !Stopped(PhaseAt(s, |s| - 1))
    ensures m <= |s| && Open(PhaseAt(s, m)) && s == s[..m] + End(cr)
  {
    var n: nat := |s| - 1;
    assert s[n] == LF;
    cr := PhaseAt(s, n) == AfterCr;
    m := if cr then n - 1 else n;
    if cr {
      assert PhaseAt(s, m + 1) == Next(PhaseAt(s, m), s[m]);
      assert s[m] == CR;
    }
  }

  /** Every line accepted is of the grammar. */
  lemma AcceptedIsGrammar(s: seq<u8>) returns (digits: seq<u8>, es: seq<Ext>, cr: bool)
    requires ParseLine(s).Line? && ParseLine(s).n == |s|
    ensures IsHexes(digits) && ExtsOk(es) && s == LineText(digits, es, cr)
    ensures ParseLine(s).size == HexValue(digits)
  {
    var m: nat;
    m, cr := EndSeen(s);
    SizeIsDigits(s, m);
    var x := Seen(s, m);
    digits := x.digits;
    es := Close(PhaseAt(s, m), x);
    GrammarIsAccepted(digits, es, cr);
  }
}
