/** LogFormatter::init: the scanner that splits a log pattern into texts and directives "%name{fmt}". */
module LogPatterns {

  /** An entry of the scanned pattern: type 0 and type 1 of the program. */
  datatype Entry = Text(text: string) | Directive(name: string, fmt: string)

  predicate IsAlpha(c: char) {
    'a' <= c <= 'z' || 'A' <= c <= 'Z'
  }

  /** A closing brace outside a format counts as part of the name. */
  predicate IsNameChar(c: char) {
    IsAlpha(c) || c == '}'
  }

  // ---- What a pattern means ----

  /** The first place from n on that is not part of a name. */
  function NameEnd(p: string, n: nat): (e: nat)
    requires n <= |p|
    ensures n <= e <= |p| && forall i :: n <= i < e ==> IsNameChar(p[i])
    ensures e < |p| ==> !IsNameChar(p[e])
    decreases |p| - n
  {
    if n == |p| || !IsNameChar(p[n]) then n else NameEnd(p, n + 1)
  }

  /** The first closing brace from n on, or the end. */
  function Closing(p: string, n: nat): (e: nat)
    requires n <= |p|
    ensures n <= e <= |p| && forall i :: n <= i < e ==> p[i] != '}'
    ensures e < |p| ==> p[e] == '}'
    decreases |p| - n
  {
    if n == |p| || p[n] == '}' then n else Closing(p, n + 1)
  }

  datatype Parsed = Parsed(name: string, fmt: string, next: nat) | Unclosed

  /** The directive whose percent sign is at i. */
  function DirectiveAt(p: string, i: nat): (d: Parsed)
    requires i < |p|
    ensures d.Parsed? ==> i < d.next <= |p|
  {
    var e := NameEnd(p, i + 1);
    if e < |p| && p[e] == '{' then
      var c := Closing(p, e + 1);
      if c < |p| then Parsed(p[i + 1..e], p[e + 1..c], c + 1) else Unclosed
    else Parsed(p[i + 1..e], "", e)
  }

  function Flush(text: string): seq<Entry> {
    if text == "" then [] else [Text(text)]
  }

  /** The entries from place i on, with the text collected so far, and whether a format was left open.
      Of two percent signs the first is text and the second is looked at again. After an open format the
      scan goes on behind the percent sign. */
  function Meaning(p: string, i: nat, text: string): (seq<Entry>, bool)
    requires i <= |p|
    decreases |p| - i
  {
    if i == |p| then (Flush(text), false)
    else if p[i] != '%' then Meaning(p, i + 1, text + [p[i]])
    else if i + 1 < |p| && p[i + 1] == '%' then Meaning(p, i + 1, text + "%")
    else
      match DirectiveAt(p, i)
      case Unclosed => ([Text("pattern_error")] + Meaning(p, i + 1, text).0, true)
      case Parsed(name, fmt, next) =>
        var (rest, error) := Meaning(p, next, "");
        (Flush(text) + [Directive(name, fmt)] + rest, error)
  }

  const KNOWN: set<string> := {"m", "p", "r", "c", "t", "n", "d", "f", "l", "T", "F", "N"}

  /** A directive without an output class. */
  predicate Unknown(e: Entry) {
    e.Directive? && e.name !in KNOWN
  }

  // ---- The scanner ----

  /** The inner loop, for the directive at i. */
  method ScanDirective(p: string, i: nat) returns (str: string, fmt: string, n: nat, status: nat)
    requires i < |p| && p[i] == '%'
    ensures status == 0 || status == 1
    ensures status == 1 <==> DirectiveAt(p, i) == Unclosed
    ensures status == 0 ==> DirectiveAt(p, i) == Parsed(str, fmt, n)
    ensures status == 1 ==> fmt == ""
  {
    n := i + 1;
    status := 0;
    var begin: nat := 0;
    str, fmt := "", "";
    while n < |p|
      invariant i < n <= |p| && fmt == "" && (status == 0 || status == 1)
      invariant status == 0 ==> NameEnd(p, i + 1) == NameEnd(p, n)
      invariant status == 0 ==> str == if n == |p| then p[i + 1..] else ""
      invariant status == 1 ==> NameEnd(p, i + 1) == begin && begin < n && p[begin] == '{'
      invariant status == 1 ==> Closing(p, begin + 1) == Closing(p, n)
      invariant status == 1 && n < |p| ==> str == p[i + 1..begin]
    {
      if status == 0 && !IsAlpha(p[n]) && p[n] != '{' && p[n] != '}' {
        str := p[i + 1..n];
        break;
      }
      if status == 0 {
        if p[n] == '{' {
          str := p[i + 1..n];
          status := 1;
          begin := n;
          n := n + 1;
          continue;
        }
      } else {
        if p[n] == '}' {
          fmt := p[begin + 1..n];
          status := 0;
          n := n + 1;
          return;
        }
      }
      n := n + 1;
      if n == |p| {
        if str == "" {
          str := p[i + 1..];
        }
      }
    }
  }

  /** The whole meaning, when these entries were found up to place i and text is collected. */
  function Whole(entries: seq<Entry>, error: bool, p: string, i: nat, text: string): (seq<Entry>, bool)
    requires i <= |p|
  {
    (entries + Meaning(p, i, text).0, error || Meaning(p, i, text).1)
  }

  lemma WholeAfterChar(entries: seq<Entry>, error: bool, p: string, i: nat, text: string)
    requires i < |p|
    ensures p[i] != '%' || (i + 1 < |p| && p[i + 1] == '%') ==>
      Whole(entries, error, p, i, text) == Whole(entries, error, p, i + 1, text + [p[i]])
  {
  }

  lemma WholeAfterDirective(entries: seq<Entry>, error: bool, p: string, i: nat, text: string)
    requires i < |p| && p[i] == '%' && !(i + 1 < |p| && p[i + 1] == '%')
    ensures match DirectiveAt(p, i)
      case Parsed(name, fmt, next) =>
        Whole(entries, error, p, i, text) == Whole(entries + Flush(text) + [Directive(name, fmt)], error, p, next, "")
      case Unclosed =>
        Whole(entries, error, p, i, text) == Whole(entries + [Text("pattern_error")], true, p, i + 1, text)
  {
    match DirectiveAt(p, i)
    case Parsed(name, fmt, next) =>
      assert entries + (Flush(text) + [Directive(name, fmt)] + Meaning(p, next, "").0)
          == entries + Flush(text) + [Directive(name, fmt)] + Meaning(p, next, "").0;
    case Unclosed =>
      assert entries + ([Text("pattern_error")] + Meaning(p, i + 1, text).0)
          == entries + [Text("pattern_error")] + Meaning(p, i + 1, text).0;
  }

  lemma WholeAtEnds(entries: seq<Entry>, error: bool, p: string, text: string)
    ensures Whole([], false, p, 0, "") == Meaning(p, 0, "")
    ensures Whole(entries, error, p, |p|, text) == (entries + Flush(text), error)
  {
    assert [] + Meaning(p, 0, "").0 == Meaning(p, 0, "").0;
  }

  /** The first loop of init. */
  method Scan(p: string) returns (entries: seq<Entry>, error: bool)
    ensures (entries, error) == Meaning(p, 0, "")
  {
    entries := [];
    error := false;
    var text := "";
    var i: nat := 0;
    WholeAtEnds(entries, error, p, text);
    while i < |p|
      invariant i <= |p|
      invariant Whole(entries, error, p, i, text) == Meaning(p, 0, "")
    {
      WholeAfterChar(entries, error, p, i, text);
      if p[i] != '%' {
        text := text + [p[i]];
        i := i + 1;
        continue;
      }
      if i + 1 < |p| {
        if p[i + 1] == '%' {
          text := text + ['%'];
          i := i + 1;
          continue;
        }
      }
      WholeAfterDirective(entries, error, p, i, text);
      var str, fmt, n, status := ScanDirective(p, i);
      if status == 0 {
        entries := entries + Flush(text);
        text := "";
        entries := entries + [Directive(str, fmt)];
        i := n;
      } else {
        error := true;
        entries := entries + [Text("pattern_error")];
        i := i + 1;
      }
    }
    WholeAtEnds(entries, error, p, text);
    entries := entries + Flush(text);
  }

  /** init: the scan, and an error also for every directive without an output class. */
  method Init(p: string) returns (entries: seq<Entry>, error: bool)
    ensures entries == Meaning(p, 0, "").0
    ensures error <==> Meaning(p, 0, "").1 || exists e :: e in entries && Unknown(e)
  {
    entries, error := Scan(p);
    var k := 0;
    while k < |entries|
      invariant 0 <= k <= |entries|
      invariant error <==> Meaning(p, 0, "").1 || exists j :: 0 <= j < k && Unknown(entries[j])
    {
      if entries[k].Directive? && entries[k].name !in KNOWN {
        error := true;
      }
      k := k + 1;
    }
  }

  // ---- Printing and scanning back ----

  /** How long an entry is when printed. */
  function Length(e: Entry): nat {
    match e
    case Text(text) => |text|
    case Directive(name, fmt) => 1 + |name| + if fmt == "" then 0 else |fmt| + 2
  }

  /** The entry stands at i, part by part. */
  predicate Stands(p: string, i: nat, e: Entry) {
    && i + Length(e) <= |p|
    && match e
       case Text(text) => p[i..i + |text|] == text
       case Directive(name, fmt) =>
         var b := i + 1 + |name|;
         && p[i] == '%' && p[i + 1..b] == name
         && (fmt != "" ==> p[b] == '{' && p[b + 1..b + 1 + |fmt|] == fmt && p[b + 1 + |fmt|] == '}')
  }

  function Print(e: Entry): (s: string)
    ensures |s| == Length(e) && Stands(s, 0, e)
  {
    match e
    case Text(text) => text
    case Directive(name, fmt) => "%" + name + if fmt == "" then "" else "{" + fmt + "}"
  }

  /** Each entry printed for itself. */
  function Parts(es: seq<Entry>): (parts: seq<string>)
    ensures |parts| == |es|
    ensures forall k :: 0 <= k < |es| ==> |parts[k]| == Length(es[k]) && Stands(parts[k], 0, es[k])
  {
    if es == [] then [] else Parts(es[..|es| - 1]) + [Print(es[|es| - 1])]
  }

  /** The parts from the k-th on, one after the other. */
  function Join(parts: seq<string>, k: nat): string
    requires k <= |parts|
    decreases |parts| - k
  {
    if k == |parts| then "" else parts[k] + Join(parts, k + 1)
  }

  function PrintAll(es: seq<Entry>): string {
    Join(Parts(es), 0)
  }

  /** A percent sign is only followed by percent signs. */
  predicate PercentsLast(text: string) {
    forall j :: 0 <= j < |text| - 1 && text[j] == '%' ==> text[j + 1] == '%'
  }

  predicate EntryOk(e: Entry) {
    match e
    case Text(text) => text != "" && PercentsLast(text)
    case Directive(name, fmt) => (forall c :: c in name ==> IsNameChar(c)) && '}' !in fmt
  }

  /** The character does not run on from a directive of this name, look like its format, or make its
      percent sign a text. */
  predicate Ends(name: string, c: char) {
    !IsNameChar(c) && c != '{' && (name == "" ==> c != '%')
  }

  /** b may stand behind a: texts are not split in two, and the scanner sees where a directive ends. */
  predicate MayFollow(a: Entry, b: Entry) {
    match a
    case Text(_) => b.Directive?
    case Directive(name, fmt) =>
      fmt != "" || (match b
                    case Text(text) => text != "" && Ends(name, text[0])
                    case Directive(_, _) => Ends(name, '%'))
  }

  /** What a text needs that has nothing behind it. */
  predicate MayEnd(e: Entry) {
    e.Text? && e.text != "" ==> e.text[|e.text| - 1] != '%'
  }

  /** A list that survives printing and scanning. */
  ghost predicate Normal(es: seq<Entry>) {
    && (forall k :: 0 <= k < |es| ==> EntryOk(es[k]))
    && (forall k: nat :: Fits(es, k))
  }

  predicate Fits(es: seq<Entry>, k: nat) {
    && (k + 1 < |es| ==> MayFollow(es[k], es[k + 1]))
    && (k + 1 == |es| ==> MayEnd(es[k]))
  }

  /** Characters that start no directive are collected. */
  lemma {:induction false} TextRun(p: string, i: nat, t: string, text: string)
    requires i + |t| <= |p| && p[i..i + |t|] == t
    requires forall j :: 0 <= j < |t| && t[j] == '%' ==> i + j + 1 < |p| && p[i + j + 1] == '%'
    ensures Meaning(p, i, text) == Meaning(p, i + |t|, text + t)
    decreases |t|
  {
    if t == "" {
      assert text + t == text;
    } else {
      assert p[i] == t[0];
      var rest := t[1..];
      assert p[i + 1..i + |t|] == p[i..i + |t|][1..] == rest;
      forall j | 0 <= j < |rest| && rest[j] == '%' ensures i + 1 + j + 1 < |p| && p[i + 1 + j + 1] == '%' {
        assert t[j + 1] == '%';
      }
      TextRun(p, i + 1, rest, text + [p[i]]);
      assert text + [p[i]] + rest == text + t;
    }
  }

  lemma {:induction false} NameEndIs(p: string, n: nat, e: nat)
    requires n <= e <= |p| && (forall i :: n <= i < e ==> IsNameChar(p[i])) && (e < |p| ==> !IsNameChar(p[e]))
    ensures NameEnd(p, n) == e
    decreases e - n
  {
    if n < e {
      NameEndIs(p, n + 1, e);
    }
  }

  lemma {:induction false} ClosingIs(p: string, n: nat, e: nat)
    requires n <= e < |p| && (forall i :: n <= i < e ==> p[i] != '}') && p[e] == '}'
    ensures Closing(p, n) == e
    decreases e - n
  {
    if n < e {
      ClosingIs(p, n + 1, e);
    }
  }

  /** A part of what stands at i. */
  lemma PartAt(p: string, i: nat, t: string, from: nat, to: nat)
    requires i + |t| <= |p| && p[i..i + |t|] == t && from <= to <= |t|
    ensures p[i + from..i + to] == t[from..to]
    ensures to < |t| ==> p[i + to] == t[to]
  {
    forall k | from <= k < to ensures p[i + k] == t[k] {
      assert p[i..i + |t|][k] == p[i + k];
    }
    assert to < |t| ==> p[i..i + |t|][to] == p[i + to];
  }

  lemma NameRead(p: string, i: nat, name: string)
    requires i + |name| <= |p| && p[i..i + |name|] == name && forall c :: c in name ==> IsNameChar(c)
    requires i + |name| < |p| ==> !IsNameChar(p[i + |name|])
    ensures NameEnd(p, i) == i + |name|
  {
    forall k | i <= k < i + |name| ensures IsNameChar(p[k]) {
      assert p[k] == p[i..i + |name|][k - i];
      assert name[k - i] in name;
    }
    NameEndIs(p, i, i + |name|);
  }

  lemma FormatRead(p: string, i: nat, fmt: string)
    requires i + |fmt| < |p| && p[i..i + |fmt|] == fmt && '}' !in fmt && p[i + |fmt|] == '}'
    ensures Closing(p, i) == i + |fmt|
  {
    forall k | i <= k < i + |fmt| ensures p[k] != '}' {
      assert p[k] == p[i..i + |fmt|][k - i];
      assert fmt[k - i] in fmt;
    }
    ClosingIs(p, i, i + |fmt|);
  }

  lemma BareRead(p: string, i: nat, name: string)
    requires i + 1 + |name| <= |p| && p[i + 1..i + 1 + |name|] == name && forall c :: c in name ==> IsNameChar(c)
    requires i + 1 + |name| < |p| ==> !IsNameChar(p[i + 1 + |name|]) && p[i + 1 + |name|] != '{'
    ensures DirectiveAt(p, i) == Parsed(name, "", i + 1 + |name|)
  {
    NameRead(p, i + 1, name);
  }

  lemma FormattedRead(p: string, i: nat, name: string, fmt: string, b: nat, e: nat)
    requires b == i + 1 + |name| && e == b + 1 + |fmt| < |p|
    requires p[i + 1..b] == name && (forall c :: c in name ==> IsNameChar(c)) && p[b] == '{'
    requires p[b + 1..e] == fmt && '}' !in fmt && p[e] == '}'
    ensures DirectiveAt(p, i) == Parsed(name, fmt, e + 1)
  {
    NameRead(p, i + 1, name);
    FormatRead(p, b + 1, fmt);
  }

  /** An entry printed somewhere stands there. */
  lemma StandsMoved(p: string, i: nat, s: string, e: Entry)
    requires i + |s| <= |p| && p[i..i + |s|] == s && Stands(s, 0, e) && |s| == Length(e)
    ensures Stands(p, i, e)
  {
    match e
    case Text(text) =>
    case Directive(name, fmt) =>
      var n: nat := |name|;
      PartAt(p, i, s, 0, 0);
      PartAt(p, i, s, 1, n + 1);
      if fmt != "" {
        PartAt(p, i, s, n + 2, n + 2 + |fmt|);
      }
  }

  lemma SplitAt(p: string, i: nat, a: string, b: string)
    requires i <= |p| && p[i..] == a + b
    ensures i + |a| <= |p| && p[i..i + |a|] == a && p[i + |a|..] == b
  {
    assert p[i..][..|a|] == a;
    assert p[i..][|a|..] == b;
  }

  /** A directive is read back, if what follows does not run on from its name. */
  lemma DirectiveRead(p: string, i: nat, e: Entry)
    requires e.Directive? && EntryOk(e) && Stands(p, i, e)
    requires e.fmt == "" && i + Length(e) < |p| ==> !IsNameChar(p[i + Length(e)]) && p[i + Length(e)] != '{'
    ensures DirectiveAt(p, i) == Parsed(e.name, e.fmt, i + Length(e))
  {
    if e.fmt == "" {
      BareRead(p, i, e.name);
    } else {
      FormattedRead(p, i, e.name, e.fmt, i + 1 + |e.name|, i + 2 + |e.name| + |e.fmt|);
    }
  }

  /** A text waits to be flushed only at the end or in front of a directive. */
  predicate Goes(text: string, es: seq<Entry>, k: nat) {
    text == "" || k >= |es| || es[k].Directive?
  }

  /** From place i on the entries from the k-th on stand one after the other. */
  ghost predicate Printed(p: string, i: nat, es: seq<Entry>, k: nat)
    requires k <= |es|
    decreases |es| - k
  {
    if k == |es| then i == |p| else Stands(p, i, es[k]) && Printed(p, i + Length(es[k]), es, k + 1)
  }

  ghost predicate Joined(p: string, i: nat, parts: seq<string>, k: nat)
    requires k <= |parts|
    decreases |parts| - k
  {
    if k == |parts| then i == |p|
    else i + |parts[k]| <= |p| && p[i..i + |parts[k]|] == parts[k] && Joined(p, i + |parts[k]|, parts, k + 1)
  }

  lemma {:induction false} JoinIsJoined(p: string, i: nat, parts: seq<string>, k: nat)
    requires k <= |parts| && i <= |p| && p[i..] == Join(parts, k)
    ensures Joined(p, i, parts, k)
    decreases |parts| - k
  {
    if k < |parts| {
      SplitAt(p, i, parts[k], Join(parts, k + 1));
      JoinIsJoined(p, i + |parts[k]|, parts, k + 1);
    }
  }

  lemma {:induction false} JoinedIsPrinted(p: string, i: nat, es: seq<Entry>, parts: seq<string>, k: nat)
    requires |parts| == |es|
    requires forall j :: 0 <= j < |es| ==> |parts[j]| == Length(es[j]) && Stands(parts[j], 0, es[j])
    requires k <= |es| && Joined(p, i, parts, k)
    ensures Printed(p, i, es, k)
    decreases |es| - k
  {
    if k < |es| {
      StandsMoved(p, i, parts[k], es[k]);
      JoinedIsPrinted(p, i + Length(es[k]), es, parts, k + 1);
    }
  }

  lemma FirstChar(p: string, i: nat, e: Entry)
    requires EntryOk(e) && Stands(p, i, e)
    ensures i < |p|
    ensures e.Text? ==> p[i] == e.text[0]
    ensures e.Directive? ==> p[i] == '%'
    ensures e.Directive? && Length(e) > 1 ==> p[i + 1] != '%'
  {
    if e.Text? {
      assert p[i..i + |e.text|][0] == p[i];
    } else if e.name != "" {
      assert p[i + 1..i + 1 + |e.name|][0] == p[i + 1];
      assert e.name[0] in e.name;
    }
  }

  /** What is printed behind a directive lets the scanner see where the directive ends. */
  lemma DirectiveAhead(p: string, i: nat, es: seq<Entry>, k: nat)
    requires Normal(es) && k < |es| && es[k].Directive? && Printed(p, i, es, k)
    ensures i + Length(es[k]) <= |p|
    ensures p[i] == '%' && (i + 1 < |p| ==> p[i + 1] != '%')
    ensures DirectiveAt(p, i) == Parsed(es[k].name, es[k].fmt, i + Length(es[k]))
  {
    FirstChar(p, i, es[k]);
    assert Fits(es, k);
    if k + 1 < |es| {
      FirstChar(p, i + Length(es[k]), es[k + 1]);
    }
    DirectiveRead(p, i, es[k]);
  }

  lemma MeaningOfDirective(p: string, i: nat, text: string, e: Entry, next: nat)
    requires i < next <= |p| && p[i] == '%' && (i + 1 < |p| ==> p[i + 1] != '%')
    requires e.Directive? && DirectiveAt(p, i) == Parsed(e.name, e.fmt, next)
    ensures Meaning(p, i, text) == (Flush(text) + [e] + Meaning(p, next, "").0, Meaning(p, next, "").1)
  {
  }

  lemma MeaningOfText(p: string, i: nat, es: seq<Entry>, k: nat)
    requires Normal(es) && k < |es| && es[k].Text? && Printed(p, i, es, k)
    ensures var t := es[k].text; i + |t| <= |p| && Meaning(p, i, "") == Meaning(p, i + |t|, t)
  {
    var t := es[k].text;
    assert Fits(es, k);
    if k + 1 < |es| {
      FirstChar(p, i + |t|, es[k + 1]);
    }
    TextRead(p, i, t);
  }

  lemma TextRead(p: string, i: nat, t: string)
    requires i + |t| <= |p| && p[i..i + |t|] == t && t != "" && PercentsLast(t)
    requires t[|t| - 1] == '%' ==> i + |t| < |p| && p[i + |t|] == '%'
    ensures Meaning(p, i, "") == Meaning(p, i + |t|, t)
  {
    forall j | 0 <= j < |t| && t[j] == '%' ensures i + j + 1 < |p| && p[i + j + 1] == '%' {
      assert j + 1 < |t| ==> p[i..i + |t|][j + 1] == p[i + j + 1];
    }
    TextRun(p, i, t, "");
    assert "" + t == t;
  }

  lemma Flushed(es: seq<Entry>, k: nat, text: string)
    requires k <= |es|
    ensures k == |es| ==> Flush(text) + es[k..] == Flush(text)
    ensures Flush("") + es[k..] == es[k..]
    ensures k < |es| && es[k].Text? && es[k].text != "" ==> Flush(es[k].text) + es[k + 1..] == es[k..]
    ensures k < |es| ==> Flush(text) + [es[k]] + (Flush("") + es[k + 1..]) == Flush(text) + es[k..]
  {
  }

  lemma {:induction false} ReadBackFrom(p: string, i: nat, es: seq<Entry>, k: nat, text: string)
    requires Normal(es) && k <= |es| && Goes(text, es, k) && Printed(p, i, es, k)
    ensures i <= |p| && Meaning(p, i, text) == (Flush(text) + es[k..], false)
    decreases |es| - k
  {
    Flushed(es, k, text);
    if k < |es| {
      var next: nat := i + Length(es[k]);
      if es[k].Text? {
        assert Fits(es, k);
        ReadBackFrom(p, next, es, k + 1, es[k].text);
        MeaningOfText(p, i, es, k);
      } else {
        ReadBackFrom(p, next, es, k + 1, "");
        DirectiveAhead(p, i, es, k);
        MeaningOfDirective(p, i, text, es[k], next);
      }
    }
  }

  // ---- Nothing else survives ----

  /** A directive starts here. */
  predicate AtDirective(p: string, i: nat) {
    i < |p| && p[i] == '%' && !(i + 1 < |p| && p[i + 1] == '%')
  }

  /** Where no directive starts, the character there joins the text collected. */
  lemma {:induction false} CollectedFirst(p: string, i: nat, text: string)
    requires i <= |p| && !Meaning(p, i, text).1
    requires text != "" || (i < |p| && !AtDirective(p, i))
    ensures var r := Meaning(p, i, text).0;
      r != [] && r[0].Text? && |r[0].text| >= |text| && (i < |p| && !AtDirective(p, i) ==> |r[0].text| > |text|)
    decreases |p| - i
  {
    if i < |p| && !AtDirective(p, i) {
      CollectedFirst(p, i + 1, text + [p[i]]);
    }
  }

  /** The scan yields no empty text. */
  lemma {:induction false} NoEmptyText(p: string, i: nat, text: string)
    requires i <= |p| && !Meaning(p, i, text).1
    ensures forall e <- Meaning(p, i, text).0 :: e.Text? ==> e.text != ""
    decreases |p| - i
  {
    if i < |p| {
      if !AtDirective(p, i) {
        NoEmptyText(p, i + 1, text + [p[i]]);
      } else {
        NoEmptyText(p, DirectiveAt(p, i).next, "");
      }
    }
  }

  function Total(es: seq<Entry>): nat {
    if es == [] then 0 else Length(es[0]) + Total(es[1..])
  }

  /** Printed, what the scan yields is no longer than what it read. */
  lemma {:induction false} SizeBound(p: string, i: nat, text: string)
    requires i <= |p| && !Meaning(p, i, text).1
    ensures Total(Meaning(p, i, text).0) <= |text| + |p| - i
    decreases |p| - i
  {
    if i < |p| {
      if !AtDirective(p, i) {
        SizeBound(p, i + 1, text + [p[i]]);
      } else {
        var d := DirectiveAt(p, i);
        SizeBound(p, d.next, "");
        TotalAhead(Flush(text), Directive(d.name, d.fmt), Meaning(p, d.next, "").0);
      }
    }
  }

  lemma TotalAhead(first: seq<Entry>, e: Entry, rest: seq<Entry>)
    requires |first| <= 1
    ensures Total(first + [e] + rest) == Total(first) + Length(e) + Total(rest)
  {
    var all := first + [e] + rest;
    if first == [] {
      assert all[1..] == rest;
    } else {
      assert all[1..] == [e] + rest && all[1..][1..] == rest && first[1..] == [];
    }
  }

  lemma {:induction false} PrintedSize(p: string, i: nat, es: seq<Entry>, k: nat)
    requires k <= |es| && Printed(p, i, es, k)
    ensures i + Total(es[k..]) == |p|
    decreases |es| - k
  {
    if k < |es| {
      PrintedSize(p, i + Length(es[k]), es, k + 1);
      assert es[k..][1..] == es[k + 1..];
    }
  }

  /** If a text comes back as it was printed, no directive started in it. */
  lemma {:induction false} TextBack(p: string, i: nat, t: string, j: nat, rest: seq<Entry>)
    requires i + |t| <= |p| && p[i..i + |t|] == t && j <= |t|
    requires Meaning(p, i + j, t[..j]) == ([Text(t)] + rest, false)
    ensures t != "" && Meaning(p, i + |t|, t) == ([Text(t)] + rest, false)
    ensures forall m :: j <= m < |t| && t[m] == '%' ==> i + m + 1 < |p| && p[i + m + 1] == '%'
    decreases |t| - j
  {
    if j == |t| {
      assert t[..j] == t;
      NoEmptyText(p, i + j, t);
      assert Text(t) in [Text(t)] + rest;
    } else {
      assert p[i + j] == p[i..i + |t|][j] == t[j];
      assert ([Text(t)] + rest)[0] == Text(t);
      if AtDirective(p, i + j) {
        assert false;
      }
      assert t[..j] + [t[j]] == t[..j + 1];
      TextBack(p, i, t, j + 1, rest);
    }
  }

  /** How far a directive read reaches. */
  lemma DirectiveExtent(p: string, i: nat)
    requires i < |p| && DirectiveAt(p, i).Parsed?
    ensures var Parsed(name, fmt, next) := DirectiveAt(p, i); var e := Directive(name, fmt);
      && EntryOk(e) && i + Length(e) <= next
      && (next == i + Length(e) && next < |p| && fmt == "" ==> !IsNameChar(p[next]) && p[next] != '{')
      && (name == "" && fmt == "" && next == i + Length(e) ==> next == i + 1)
  {
  }

  lemma DirectiveStarts(p: string, i: nat, es: seq<Entry>, k: nat, text: string)
    requires k < |es| && es[k].Directive? && Stands(p, i, es[k]) && i <= |p|
    requires Meaning(p, i, text) == (Flush(text) + es[k..], false)
    ensures AtDirective(p, i) && DirectiveAt(p, i).Parsed?
  {
    var all := Flush(text) + es[k..];
    assert all[0] == if text == "" then es[k] else Text(text);
    if !AtDirective(p, i) {
      CollectedFirst(p, i, text);
      assert false;
    }
  }

  lemma Cancelled(first: seq<Entry>, e: Entry, rest: seq<Entry>, es: seq<Entry>, k: nat)
    requires k < |es| && first + [e] + rest == first + es[k..]
    ensures es[k] == e && es[k + 1..] == rest
  {
    var all := first + es[k..];
    assert all[|first|] == es[k];
    assert all[|first| + 1..] == es[k + 1..];
    assert (first + [e] + rest)[|first| + 1..] == rest;
  }

  /** If the entry at k is a directive and comes back, the scanner read it where it was printed. */
  lemma DirectiveBack(p: string, i: nat, es: seq<Entry>, k: nat, text: string)
    requires k < |es| && es[k].Directive? && Printed(p, i, es, k) && i <= |p|
    requires Meaning(p, i, text) == (Flush(text) + es[k..], false)
    ensures var next := i + Length(es[k]);
      && AtDirective(p, i) && next <= |p| && DirectiveAt(p, i) == Parsed(es[k].name, es[k].fmt, next)
      && Meaning(p, next, "") == (es[k + 1..], false)
  {
    DirectiveStarts(p, i, es, k, text);
    var Parsed(name, fmt, next) := DirectiveAt(p, i);
    MeaningOfDirective(p, i, text, Directive(name, fmt), next);
    Cancelled(Flush(text), Directive(name, fmt), Meaning(p, next, "").0, es, k);
    DirectiveExtent(p, i);
    SizeBound(p, next, "");
    PrintedSize(p, i + Length(es[k]), es, k + 1);
  }

  /** Entries that come back from where they were printed are normal. */
  lemma {:induction false} NormalFrom(p: string, i: nat, es: seq<Entry>, k: nat, text: string)
    requires k <= |es| && Printed(p, i, es, k) && i <= |p|
    requires Meaning(p, i, text) == (Flush(text) + es[k..], false)
    ensures forall j: nat :: k <= j < |es| ==> EntryOk(es[j]) && Fits(es, j)
    ensures text != "" && k < |es| ==> es[k].Directive?
    decreases |es| - k
  {
    if k < |es| {
      var next := i + Length(es[k]);
      if es[k].Directive? {
        DirectiveBack(p, i, es, k, text);
        assert Flush("") + es[k + 1..] == es[k + 1..];
        NormalFrom(p, next, es, k + 1, "");
        DirectiveFits(p, i, es, k);
      } else if text == "" {
        TextStands(p, i, es, k);
        NormalFrom(p, next, es, k + 1, es[k].text);
      } else {
        TextsApart(p, i, es, k, text);
      }
    }
  }

  /** A directive read where it was printed fits what stands behind it. */
  lemma DirectiveFits(p: string, i: nat, es: seq<Entry>, k: nat)
    requires k < |es| && es[k].Directive? && Printed(p, i, es, k) && AtDirective(p, i)
    requires i + Length(es[k]) <= |p| && DirectiveAt(p, i) == Parsed(es[k].name, es[k].fmt, i + Length(es[k]))
    requires k + 1 < |es| ==> EntryOk(es[k + 1])
    ensures EntryOk(es[k]) && Fits(es, k)
  {
    DirectiveExtent(p, i);
    if k + 1 < |es| {
      FirstChar(p, i + Length(es[k]), es[k + 1]);
    }
  }

  lemma TextStands(p: string, i: nat, es: seq<Entry>, k: nat)
    requires k < |es| && es[k].Text? && Printed(p, i, es, k) && i <= |p|
    requires Meaning(p, i, "") == (Flush("") + es[k..], false)
    ensures var t := es[k].text; i + |t| <= |p| && Meaning(p, i + |t|, t) == (Flush(t) + es[k + 1..], false)
    ensures EntryOk(es[k]) && (k + 1 == |es| ==> MayEnd(es[k]))
  {
    var t := es[k].text;
    assert t[..0] == "" && Flush("") + es[k..] == [es[k]] + es[k + 1..];
    TextBack(p, i, t, 0, es[k + 1..]);
    forall j | 0 <= j < |t| - 1 && t[j] == '%' ensures t[j + 1] == '%' {
      assert p[i..i + |t|][j + 1] == p[i + j + 1];
    }
  }

  /** Two texts never come one after the other. */
  lemma TextsApart(p: string, i: nat, es: seq<Entry>, k: nat, text: string)
    requires k < |es| && es[k].Text? && text != "" && i <= |p|
    ensures Meaning(p, i, text) != (Flush(text) + es[k..], false)
  {
    var all := Flush(text) + es[k..];
    assert all[0] == Text(text) && all[1] == es[k];
    if Meaning(p, i, text) == (all, false) {
      CollectedFirst(p, i, text);
    }
  }

  /** Scanning the printed form of a list gives the list back, without an error, exactly when it is normal. */
  lemma PrintThenScan(es: seq<Entry>)
    ensures Meaning(PrintAll(es), 0, "") == (es, false) <==> Normal(es)
  {
    var p := PrintAll(es);
    assert p[0..] == p;
    JoinIsJoined(p, 0, Parts(es), 0);
    JoinedIsPrinted(p, 0, es, Parts(es), 0);
    assert Flush("") + es[0..] == es;
    if Normal(es) {
      ReadBackFrom(p, 0, es, 0, "");
    }
    if Meaning(p, 0, "") == (es, false) {
      NormalFrom(p, 0, es, 0, "");
    }
  }

  /** A pattern with an open format is in error; the rest of it is scanned behind the percent sign, with an
      entry that says so in front and the text so far still to come. */
  lemma OpenIsError(p: string, i: nat, e: nat, text: string)
    requires AtDirective(p, i) && OpensAt(p, i, e)
    ensures Meaning(p, i, text) == ([Text("pattern_error")] + Meaning(p, i + 1, text).0, true)
  {
    OpenFormat(p, i);
  }

  /** The letters with an output class are these twelve. */
  lemma KnownLetters(c: char)
    ensures [c] in KNOWN <==> c in {'m', 'p', 'r', 'c', 't', 'n', 'd', 'f', 'l', 'T', 'F', 'N'}
  {
    forall x: char ensures [c] == [x] <==> c == x {
      assert [c][0] == c && [x][0] == x;
    }
  }

  lemma PrintedDirective(c: char)
    ensures PrintAll([Directive([c], "")]) == ['%', c]
  {
    var e := Directive([c], "");
    assert [e][..0] == [];
    assert Parts([e]) == [] + [Print(e)];
    assert Join(Parts([e]), 1) == "";
    assert Print(e) == "%" + [c] + "";
  }

  /** The directive of one letter is scanned as such, for every letter of the alphabet in either case; the
      pattern is in error exactly for the letters without an output class. */
  lemma OneLetter(c: char)
    requires 'a' <= c <= 'z' || 'A' <= c <= 'Z'
    ensures Meaning(['%', c], 0, "") == ([Directive([c], "")], false)
    ensures Unknown(Directive([c], "")) <==> c !in {'m', 'p', 'r', 'c', 't', 'n', 'd', 'f', 'l', 'T', 'F', 'N'}
  {
    PrintThenScan([Directive([c], "")]);
    PrintedDirective(c);
    KnownLetters(c);
  }

  /** A format starts at e, right behind the name, and is not closed. */
  ghost predicate OpensAt(p: string, i: nat, e: nat) {
    && i < e < |p| && p[e] == '{'
    && (forall k :: i < k < e ==> IsNameChar(p[k]))
    && (forall k :: e < k < |p| ==> p[k] != '}')
  }

  /** A directive is left open exactly when a brace follows its name and no closing brace follows that. */
  lemma OpenFormat(p: string, i: nat)
    requires i < |p|
    ensures DirectiveAt(p, i) == Unclosed <==> exists e :: OpensAt(p, i, e)
  {
    if e :| OpensAt(p, i, e) {
      NameEndIs(p, i + 1, e);
    }
    if DirectiveAt(p, i) == Unclosed {
      assert OpensAt(p, i, NameEnd(p, i + 1));
    }
  }
}
