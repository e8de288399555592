/** The IPv6 text form: the printer's loop against a parser for section 2.2 of RFC 4291. */
module AddressText {
  import opened Common

  // ---- numerals ----

  const DIGITS: string := "0123456789abcdef"

  function Digit(d: nat): (c: char)
    requires d < 16
    ensures c != ':' && c != ']' && DigitValue(c) == d
  {
    DIGITS[d]
  }

  function DigitValue(c: char): (d: int)
    ensures -1 <= d < 16
  {
    if '0' <= c <= '9' then c as int - '0' as int
    else if 'a' <= c <= 'f' then c as int - 'a' as int + 10
    else -1
  }

  type Base = b: nat | b == 10 || b == 16 witness 10

  /** How a stream prints an unsigned number, in decimal or hexadecimal. */
  function Numeral(n: nat, base: Base): (s: string)
    ensures |s| > 0
    ensures forall i :: 0 <= i < |s| ==> s[i] != ':' && s[i] != ']'
  {
    if n < base then [Digit(n)]
    else if base == 10 then Numeral(n / 10, 10) + [Digit(n % 10)]
    else Numeral(n / 16, 16) + [Digit(n % 16)]
  }

  function ParseNumeral(s: string, base: Base): Option<nat> {
    if s == [] then None
    else
      var d := DigitValue(s[|s| - 1]);
      if d < 0 || d >= base then None
      else if |s| == 1 then Some(d)
      else match ParseNumeral(s[..|s| - 1], base) case None => None case Some(n) => Some(n * base + d)
  }

  lemma ParseAppend(s: string, base: Base, n: nat, d: nat)
    requires ParseNumeral(s, base) == Some(n) && d < base
    ensures ParseNumeral(s + [Digit(d)], base) == Some(n * base + d)
  {
    assert (s + [Digit(d)])[..|s|] == s;
  }

  lemma {:induction false} NumeralRoundTrip(n: nat, base: Base)
    ensures ParseNumeral(Numeral(n, base), base) == Some(n)
  {
    if n < base {
    } else if base == 10 {
      NumeralRoundTrip(n / 10, 10);
      ParseAppend(Numeral(n / 10, 10), 10, n / 10, n % 10);
    } else {
      NumeralRoundTrip(n / 16, 16);
      ParseAppend(Numeral(n / 16, 16), 16, n / 16, n % 16);
    }
  }

  lemma HexLonger(n: nat, k: nat)
    requires n < 16 ==> 1 <= k
    requires n >= 16 ==> |Numeral(n / 16, 16)| < k
    ensures |Numeral(n, 16)| <= k
  {
  }

  lemma HexLength(n: nat)
    requires n < 0x10000
    ensures |Numeral(n, 16)| <= 4
  {
    HexLonger(n / 16 / 16 / 16, 1);
    HexLonger(n / 16 / 16, 2);
    HexLonger(n / 16, 3);
    HexLonger(n, 4);
  }

  // ---- the reference parser ----

  /** The first position from which `c` occurs, or the end. */
  function FirstChar(s: string, c: char): (i: nat)
    ensures i <= |s| && (i < |s| ==> s[i] == c) && forall j :: 0 <= j < i ==> s[j] != c
  {
    if s == [] || s[0] == c then 0 else 1 + FirstChar(s[1..], c)
  }

  predicate DoubleAt(s: string, i: int) {
    0 <= i && i + 1 < |s| && s[i] == ':' && s[i + 1] == ':'
  }

  /** The first "::", or the end. */
  function FirstDouble(s: string): (i: nat)
    ensures i <= |s| && (i < |s| ==> DoubleAt(s, i)) && forall j :: 0 <= j < i ==> !DoubleAt(s, j)
  {
    if s == [] then 0
    else if DoubleAt(s, 0) then 0
    else
      assert forall j :: DoubleAt(s, j) && j > 0 ==> DoubleAt(s[1..], j - 1);
      1 + FirstDouble(s[1..])
  }

  /** One group: one to four hexadecimal digits. */
  function ParseGroup(s: string): Option<nat> {
    if |s| > 4 then None else ParseNumeral(s, 16)
  }

  /** Groups separated by single colons. */
  function ParseGroups(s: string): Option<seq<nat>>
    decreases |s|
  {
    var k := FirstChar(s, ':');
    match ParseGroup(s[..k])
    case None => None
    case Some(g) =>
      if k == |s| then Some([g])
      else match ParseGroups(s[k + 1..]) case None => None case Some(gs) => Some([g] + gs)
  }

  function ParseSide(s: string): Option<seq<nat>> {
    if s == [] then Some([]) else ParseGroups(s)
  }

  function Zeros(n: nat): (r: seq<nat>)
    ensures |r| == n && forall i :: 0 <= i < n ==> r[i] == 0
  {
    seq(n, _ => 0)
  }

  /** Eight groups, or fewer with one "::" that stands for one or more groups of zeros. */
  function ParseBody(s: string): Option<seq<nat>> {
    var i := FirstDouble(s);
    if i == |s| then
      match ParseGroups(s) case None => None case Some(gs) => if |gs| == 8 then Some(gs) else None
    else
      match ParseSide(s[..i]) case None => None case Some(left) =>
      match ParseSide(s[i + 2..]) case None => None case Some(right) =>
      if |left| + |right| >= 8 then None else Some(left + Zeros(8 - |left| - |right|) + right)
  }

  datatype Endpoint = Endpoint(groups: seq<nat>, port: nat)

  /** `[address]:port`. */
  function Parse(s: string): Option<Endpoint> {
    if s == [] || s[0] != '[' then None
    else
      var k := FirstChar(s, ']');
      if k + 1 >= |s| || s[k + 1] != ':' then None
      else
        match ParseBody(s[1..k]) case None => None case Some(gs) =>
        match ParseNumeral(s[k + 2..], 10) case None => None case Some(p) => Some(Endpoint(gs, p))
  }

  // ---- what is printed ----

  predicate IsGroups(gs: seq<nat>) {
    forall i :: 0 <= i < |gs| ==> gs[i] < 0x10000
  }

  /** Groups joined by colons. */
  function Join(gs: seq<nat>): string {
    if gs == [] then ""
    else if |gs| == 1 then Numeral(gs[0], 16)
    else Numeral(gs[0], 16) + ":" + Join(gs[1..])
  }

  lemma JoinCons(g: nat, gs: seq<nat>)
    requires gs != []
    ensures Join([g] + gs) == Numeral(g, 16) + ":" + Join(gs)
  {
    assert ([g] + gs)[1..] == gs;
  }

  lemma Regroup(a: string, b: string, c: string, d: string)
    ensures a + (b + c + d) == a + b + c + d
  {
  }

  lemma {:induction false} JoinAppend(gs: seq<nat>, g: nat)
    ensures Join(gs + [g]) == Join(gs) + (if gs == [] then "" else ":") + Numeral(g, 16)
  {
    if gs == [] {
      assert gs + [g] == [g];
    } else if |gs| == 1 {
      assert gs == [gs[0]] && gs + [g] == [gs[0]] + [g];
      JoinCons(gs[0], [g]);
    } else {
      var rest := gs[1..];
      assert gs == [gs[0]] + rest && gs + [g] == [gs[0]] + (rest + [g]);
      JoinAppend(rest, g);
      JoinCons(gs[0], rest + [g]);
      JoinCons(gs[0], rest);
      Regroup(Numeral(gs[0], 16) + ":", Join(rest), ":", Numeral(g, 16));
    }
  }

  /** The first zero group from `i` on, or the end. */
  function FirstZero(g: seq<nat>, i: nat): (z: nat)
    requires i <= |g|
    ensures i <= z <= |g| && (z < |g| ==> g[z] == 0) && forall j :: i <= j < z ==> g[j] != 0
    decreases |g| - i
  {
    if i == |g| || g[i] == 0 then i else FirstZero(g, i + 1)
  }

  /** The first group after `i` that is not zero, or the end. */
  function RunEnd(g: seq<nat>, i: nat): (e: nat)
    requires i <= |g|
    ensures i <= e <= |g| && (e < |g| ==> g[e] != 0) && forall j :: i <= j < e ==> g[j] == 0
    decreases |g| - i
  {
    if i == |g| || g[i] != 0 then i else RunEnd(g, i + 1)
  }

  /** The first run of zero groups, of any length, is written as "::". */
  function Body(g: seq<nat>): string {
    var z := FirstZero(g, 0);
    if z == |g| then Join(g) else Join(g[..z]) + "::" + Join(g[RunEnd(g, z)..])
  }

  /** What the printer has written after the first `n` groups. */
  function Written(g: seq<nat>, n: nat): string
    requires n <= |g|
  {
    var z := FirstZero(g, 0);
    if n <= z then Join(g[..n])
    else
      var e := RunEnd(g, z);
      if n <= e then Join(g[..z]) else Join(g[..z]) + "::" + Join(g[e..n])
  }

  function Colon(n: nat): string {
    if n > 0 then ":" else ""
  }

  lemma AppendNothing(a: string)
    ensures a + "" == a
  {
  }

  lemma TwoColons(a: string)
    ensures a + ":" + ":" == a + "::"
  {
  }

  /** Before the first zero group. */
  lemma WrittenBefore(g: seq<nat>, n: nat)
    requires n < FirstZero(g, 0)
    ensures Written(g, n + 1) == Written(g, n) + Colon(n) + Numeral(g[n], 16)
  {
    assert g[..n + 1] == g[..n] + [g[n]];
    JoinAppend(g[..n], g[n]);
  }

  /** At the group that ends the run. */
  lemma WrittenAfterRun(g: seq<nat>, n: nat)
    requires FirstZero(g, 0) < n == RunEnd(g, FirstZero(g, 0)) < |g|
    ensures Written(g, n + 1) == Written(g, n) + ":" + ":" + Numeral(g[n], 16)
  {
    assert g[n..n + 1] == [g[n]];
    assert Join([g[n]]) == Numeral(g[n], 16);
    TwoColons(Join(g[..FirstZero(g, 0)]));
  }

  lemma JoinSlice(g: seq<nat>, e: nat, n: nat)
    requires e < n < |g|
    ensures Join(g[e..n + 1]) == Join(g[e..n]) + ":" + Numeral(g[n], 16)
  {
    assert g[e..n + 1] == g[e..n] + [g[n]];
    JoinAppend(g[e..n], g[n]);
  }

  lemma WrittenLater(g: seq<nat>, n: nat)
    requires RunEnd(g, FirstZero(g, 0)) < n < |g| && FirstZero(g, 0) < n
    ensures Written(g, n + 1) == Written(g, n) + ":" + Numeral(g[n], 16)
  {
    var z := FirstZero(g, 0);
    var e := RunEnd(g, z);
    var head := Join(g[..z]) + "::";
    assert Written(g, n) == head + Join(g[e..n]);
    assert Written(g, n + 1) == head + Join(g[e..n + 1]);
    JoinSlice(g, e, n);
    Regroup(head, Join(g[e..n]), ":", Numeral(g[n], 16));
  }

  /** A run that reaches the end is still to be written. */
  lemma WrittenToEnd(g: seq<nat>)
    requires FirstZero(g, 0) < |g| == RunEnd(g, FirstZero(g, 0))
    ensures Body(g) == Written(g, |g|) + "::"
  {
    AppendNothing(Join(g[..FirstZero(g, 0)]) + "::");
    assert g[|g|..] == [];
  }

  lemma WrittenPlain(g: seq<nat>)
    requires FirstZero(g, 0) == |g|
    ensures Body(g) == Written(g, |g|)
  {
    assert g[..|g|] == g;
  }

  lemma WrittenPast(g: seq<nat>, e: nat)
    requires FirstZero(g, 0) < |g| && e == RunEnd(g, FirstZero(g, 0)) < |g|
    ensures Body(g) == Written(g, |g|)
  {
    assert g[e..|g|] == g[e..];
  }

  lemma WrittenAll(g: seq<nat>)
    requires FirstZero(g, 0) < |g| ==> RunEnd(g, FirstZero(g, 0)) < |g|
    ensures Body(g) == Written(g, |g|)
  {
    if FirstZero(g, 0) == |g| {
      WrittenPlain(g);
    } else {
      WrittenPast(g, RunEnd(g, FirstZero(g, 0)));
    }
  }

  /** Whether the printer has already used its "::" before group `n`. */
  predicate Used(g: seq<nat>, n: nat) {
    FirstZero(g, 0) < n && RunEnd(g, FirstZero(g, 0)) < n
  }

  /** The body of the loop of `IPv6Address::insert`. */
  method PrintGroup(g: seq<nat>, i: nat, before: string, wasUsed: bool) returns (s: string, used: bool)
    requires i < |g| && before == Written(g, i) && wasUsed == Used(g, i)
    ensures s == Written(g, i + 1) && used == Used(g, i + 1)
  {
    s, used := before, wasUsed;
    if g[i] == 0 && !used {
      return;
    }
    if i != 0 && g[i - 1] == 0 && !used {
      WrittenAfterRun(g, i);
      s := s + ":";
      used := true;
    } else if i < FirstZero(g, 0) {
      WrittenBefore(g, i);
    } else {
      WrittenLater(g, i);
    }
    if i != 0 {
      s := s + ":";
    }
    s := s + Numeral(g[i], 16);
  }

  /** The loop of `IPv6Address::insert` and what follows it. */
  method PrintBody(g: seq<nat>) returns (s: string)
    requires |g| == 8
    ensures s == Body(g)
  {
    s := "";
    var used := false;
    for i := 0 to 8
      invariant s == Written(g, i) && used == Used(g, i)
    {
      s, used := PrintGroup(g, i, s, used);
    }
    if !used && g[7] == 0 {
      WrittenToEnd(g);
      s := s + "::";
    } else {
      WrittenAll(g);
    }
  }

  /** `IPv6Address::insert`. */
  method Print(g: seq<nat>, port: nat) returns (s: string)
    requires |g| == 8
    ensures s == Printed(g, port)
  {
    var body := PrintBody(g);
    s := "[" + body + "]:" + Numeral(port, 10);
  }

  // ---- reading it back ----

  lemma {:induction false} FirstCharAt(a: string, c: char, b: string)
    requires forall i :: 0 <= i < |a| ==> a[i] != c
    ensures FirstChar(a + [c] + b, c) == |a|
  {
    var s := a + [c] + b;
    var i := FirstChar(s, c);
    assert s[|a|] == c;
    assert forall j :: 0 <= j < |a| ==> s[j] == a[j];
  }

  lemma ParseCons(h: string, g: nat, rest: string, gs: seq<nat>)
    requires ParseGroup(h) == Some(g) && (forall i :: 0 <= i < |h| ==> h[i] != ':') && ParseGroups(rest) == Some(gs)
    ensures ParseGroups(h + ":" + rest) == Some([g] + gs)
  {
    var s := h + ":" + rest;
    FirstCharAt(h, ':', rest);
    assert s[..|h|] == h && s[|h| + 1..] == rest;
  }

  lemma ParseOne(h: string)
    requires forall i :: 0 <= i < |h| ==> h[i] != ':'
    ensures ParseGroups(h) == match ParseGroup(h) case None => None case Some(g) => Some([g])
  {
    assert h[..|h|] == h;
  }

  lemma {:induction false} GroupsRoundTrip(gs: seq<nat>)
    requires gs != [] && IsGroups(gs)
    ensures ParseGroups(Join(gs)) == Some(gs)
  {
    NumeralRoundTrip(gs[0], 16);
    HexLength(gs[0]);
    if |gs| == 1 {
      ParseOne(Numeral(gs[0], 16));
      assert gs == [gs[0]];
    } else {
      GroupsRoundTrip(gs[1..]);
      ParseCons(Numeral(gs[0], 16), gs[0], Join(gs[1..]), gs[1..]);
      assert gs == [gs[0]] + gs[1..];
    }
  }

  /** Text between the colons of "::": no "::" of its own and no colon at either end. */
  ghost predicate Tame(s: string) {
    (forall i :: !DoubleAt(s, i)) && (s != [] ==> s[0] != ':' && s[|s| - 1] != ':')
  }

  lemma {:induction false} JoinTame(gs: seq<nat>)
    ensures Tame(Join(gs)) && (gs != [] ==> Join(gs) != [])
    ensures forall i :: 0 <= i < |Join(gs)| ==> Join(gs)[i] != ']'
  {
    if |gs| > 1 {
      var h := Numeral(gs[0], 16);
      var rest := Join(gs[1..]);
      JoinTame(gs[1..]);
      TameJoin(h, rest);
    }
  }

  lemma TameJoin(h: string, rest: string)
    requires h != [] && (forall i :: 0 <= i < |h| ==> h[i] != ':') && Tame(rest) && rest != []
    ensures Tame(h + ":" + rest)
  {
    var s := h + ":" + rest;
    forall i
      ensures !DoubleAt(s, i)
    {
      assert i > |h| && DoubleAt(s, i) ==> DoubleAt(rest, i - |h| - 1);
    }
  }

  /** The one "::" in the middle is the first and the only one. */
  lemma OneDouble(l: string, r: string, i: int)
    requires Tame(l) && Tame(r)
    ensures DoubleAt(l + "::" + r, i) <==> i == |l|
  {
    var s := l + "::" + r;
    if i < |l| {
      assert DoubleAt(s, i) && i + 1 < |l| ==> DoubleAt(l, i);
    } else if i > |l| + 1 {
      assert DoubleAt(s, i) ==> DoubleAt(r, i - |l| - 2);
    }
  }

  lemma DoubleFound(l: string, r: string)
    requires Tame(l) && Tame(r)
    ensures FirstDouble(l + "::" + r) == |l|
  {
    var s := l + "::" + r;
    var i := FirstDouble(s);
    OneDouble(l, r, |l|);
    OneDouble(l, r, i);
  }

  lemma SideRoundTrip(gs: seq<nat>)
    requires IsGroups(gs)
    ensures ParseSide(Join(gs)) == Some(gs) && Tame(Join(gs))
  {
    JoinTame(gs);
    if gs != [] {
      GroupsRoundTrip(gs);
    }
  }

  /** The groups around a run of zeros, and the run, make up the address. */
  lemma RunSplits(g: seq<nat>, z: nat, e: nat)
    requires z <= e <= |g| && forall j :: z <= j < e ==> g[j] == 0
    ensures g == g[..z] + Zeros(e - z) + g[e..]
  {
    assert g[z..e] == Zeros(e - z);
    assert g == g[..z] + g[z..e] + g[e..];
  }

  lemma ParseAround(l: string, r: string, left: seq<nat>, right: seq<nat>, g: seq<nat>, n: nat)
    requires Tame(l) && Tame(r) && ParseSide(l) == Some(left) && ParseSide(r) == Some(right)
    requires |left| + |right| < 8 && n == 8 - |left| - |right| && g == left + Zeros(n) + right
    ensures ParseBody(l + "::" + r) == Some(g)
  {
    var s := l + "::" + r;
    DoubleFound(l, r);
    assert s[..|l|] == l && s[|l| + 2..] == r;
  }

  lemma ParsePlain(s: string, gs: seq<nat>)
    requires Tame(s) && ParseGroups(s) == Some(gs) && |gs| == 8
    ensures ParseBody(s) == Some(gs)
  {
    assert !DoubleAt(s, FirstDouble(s));
  }

  lemma AroundRoundTrip(g: seq<nat>, z: nat, e: nat)
    requires |g| == 8 && IsGroups(g) && z < e <= 8 && forall j :: z <= j < e ==> g[j] == 0
    ensures ParseBody(Join(g[..z]) + "::" + Join(g[e..])) == Some(g)
  {
    RunSplits(g, z, e);
    SidesRoundTrip(g[..z], g[e..], g, e - z);
  }

  lemma SidesRoundTrip(left: seq<nat>, right: seq<nat>, g: seq<nat>, n: nat)
    requires IsGroups(left) && IsGroups(right) && |left| + |right| < 8
    requires n == 8 - |left| - |right| && g == left + Zeros(n) + right
    ensures ParseBody(Join(left) + "::" + Join(right)) == Some(g)
  {
    SideRoundTrip(left);
    SideRoundTrip(right);
    ParseAround(Join(left), Join(right), left, right, g, n);
  }

  lemma BodyRoundTrip(g: seq<nat>)
    requires |g| == 8 && IsGroups(g)
    ensures ParseBody(Body(g)) == Some(g)
  {
    var z := FirstZero(g, 0);
    if z == 8 {
      JoinTame(g);
      GroupsRoundTrip(g);
      ParsePlain(Join(g), g);
    } else {
      AroundRoundTrip(g, z, RunEnd(g, z));
    }
  }

  lemma BodyChars(g: seq<nat>)
    ensures forall i :: 0 <= i < |Body(g)| ==> Body(g)[i] != ']'
  {
    var z := FirstZero(g, 0);
    JoinTame(g);
    JoinTame(g[..z]);
    JoinTame(g[RunEnd(g, z)..]);
  }

  function Printed(g: seq<nat>, port: nat): string {
    "[" + Body(g) + "]:" + Numeral(port, 10)
  }

  lemma ParsePrinted(b: string, n: string, g: seq<nat>, port: nat)
    requires (forall i :: 0 <= i < |b| ==> b[i] != ']') && ParseBody(b) == Some(g) && ParseNumeral(n, 10) == Some(port)
    ensures Parse("[" + b + "]:" + n) == Some(Endpoint(g, port))
  {
    var s := "[" + b + "]:" + n;
    assert s == ("[" + b) + [']'] + (":" + n);
    FirstCharAt("[" + b, ']', ":" + n);
    assert s[1..|b| + 1] == b && s[|b| + 3..] == n;
  }

  /** A parser for the standard text form reads back what was printed, address and port. */
  lemma TextRoundTrip(g: seq<nat>, port: nat)
    requires |g| == 8 && IsGroups(g)
    ensures Parse(Printed(g, port)) == Some(Endpoint(g, port))
  {
    BodyChars(g);
    BodyRoundTrip(g);
    NumeralRoundTrip(port, 10);
    ParsePrinted(Body(g), Numeral(port, 10), g, port);
  }

  /** So two endpoints with the same text are the same. */
  lemma TextInjective(g: seq<nat>, p: nat, h: seq<nat>, q: nat)
    requires |g| == 8 && IsGroups(g) && |h| == 8 && IsGroups(h)
    requires Printed(g, p) == Printed(h, q)
    ensures g == h && p == q
  {
    TextRoundTrip(g, p);
    TextRoundTrip(h, q);
  }

  /** A "::" is in the text exactly when some group is zero, and then once. */
  lemma DoubleOnce(g: seq<nat>, port: nat, i: int)
    ensures DoubleAt(Printed(g, port), i) <==> FirstZero(g, 0) < |g| && i == 1 + |Join(g[..FirstZero(g, 0)])|
  {
    var z := FirstZero(g, 0);
    var s := Printed(g, port);
    var b := Body(g);
    var n := Numeral(port, 10);
    assert s == "[" + b + "]:" + n;
    assert DoubleAt(s, i) <==> DoubleAt(b, i - 1);
    if z == |g| {
      JoinTame(g);
    } else {
      JoinTame(g[..z]);
      JoinTame(g[RunEnd(g, z)..]);
      OneDouble(Join(g[..z]), Join(g[RunEnd(g, z)..]), i - 1);
    }
  }
}
