/** The ordering and row logic of the debugger's property panel
    (src/components/SidebarDebug/DebugPropertiesPanel.tsx). Before the
    properties of a frame are sorted by name, a name holding an index such
    as `[7]` or `arg(2)` is rewritten with the index zero-padded to ten
    digits, so that indices sort by value. The rendering itself is not
    modelled, only what each row shows and whether it can be toggled. */
module DebugPropertiesPanel {
  import opened Wrappers
  import opened JsText
  import Sorting
  import opened XsbugParser

  /** One of `sortingRegexps`: the literal text before the digits (group 1)
      and the one after them (group 3); group 2 is `[0-9]+`. */
  datatype Pattern = Pattern(open: string, close: string)

  const SortingPatterns: seq<Pattern> := [
    Pattern("[", "]"), Pattern("(.", ")"), Pattern("(..", ")"), Pattern("arg(", ")"), Pattern("var(", ")")
  ]

  const SortingZeros: string := "0000000000"

  // -------------------------------------------------------------- matching

  /** The pattern matches `s` at `p`. Group 2 is greedy and the closing
      text does not start with a digit, so it is the whole digit run there. */
  predicate MatchesAt(s: string, pat: Pattern, p: nat)
    requires p <= |s|
  {
    var rest := s[p..];
    StartsWith(rest, pat.open) &&
    var after := rest[|pat.open|..];
    var digits := DigitPrefix(after);
    |digits| > 0 && StartsWith(after[|digits|..], pat.close)
  }

  /** The leftmost match at or after `p`. */
  function FindMatch(s: string, pat: Pattern, p: nat): (r: Option<nat>)
    requires p <= |s|
    ensures r.Some? ==> p <= r.value <= |s| && MatchesAt(s, pat, r.value)
    ensures r.Some? ==> forall k :: p <= k < r.value ==> !MatchesAt(s, pat, k)
    ensures r.None? ==> forall k :: p <= k <= |s| ==> !MatchesAt(s, pat, k)
    decreases |s| - p
  {
    if MatchesAt(s, pat, p) then Some(p)
    else if p == |s| then None
    else FindMatch(s, pat, p + 1)
  }

  /** The three groups of a successful `exec`. */
  datatype Groups = Groups(open: string, digits: string, close: string)

  /** `pattern.exec(s)`: the groups of the leftmost match, or null. */
  function Exec(s: string, pat: Pattern): (r: Option<Groups>)
    ensures r.Some? ==> (r.value.open == pat.open && r.value.close == pat.close
                         && |r.value.digits| > 0 && AllDigits(r.value.digits))
  {
    match FindMatch(s, pat, 0)
    case None => None
    case Some(q) =>
      var after := s[q..][|pat.open|..];
      Some(Groups(pat.open, DigitPrefix(after), pat.close))
  }

  /** `sortingZeros.slice(0, -result.length)`: a negative end counts from
      the end of the ten zeros and stops at the start. */
  function ZerosFor(digits: string): (z: string)
    requires |digits| > 0
    ensures |z| == (if |digits| >= 10 then 0 else 10 - |digits|)
    ensures forall i :: 0 <= i < |z| ==> z[i] == '0'
  {
    var end := |SortingZeros| - |digits|;
    SortingZeros[..if end < 0 then 0 else end]
  }

  /** The name after the first pattern of `pats` that matches, or the name
      itself when none does. */
  function Rewritten(name: string, pats: seq<Pattern>): string {
    if pats == [] then name
    else
      match Exec(name, pats[0])
      case Some(g) => g.open + ZerosFor(g.digits) + g.digits + g.close
      case None => Rewritten(name, pats[1..])
  }

  /** The `for` loop over `sortingRegexps` in the `map` callback: the first
      pattern that matches rewrites the name, and the loop breaks. */
  method SortingName(name: string) returns (r: string)
    ensures r == Rewritten(name, SortingPatterns)
  {
    r := name;
    var i := 0;
    while i < |SortingPatterns|
      invariant 0 <= i <= |SortingPatterns|
      invariant Rewritten(name, SortingPatterns) == Rewritten(name, SortingPatterns[i..])
    {
      assert SortingPatterns[i..][1..] == SortingPatterns[i + 1..];
      var results := Exec(name, SortingPatterns[i]);
      if results.Some? {
        var result := results.value.digits;
        r := results.value.open + ZerosFor(result) + result + results.value.close;
        return;
      }
      i := i + 1;
    }
  }

  // ---------------------------------------------------------- properties

  /** The first pattern that matches decides: the name becomes its opening
      text, the digits padded with zeros to ten characters, and its closing
      text; everything outside the match is dropped. */
  lemma {:induction false} RewrittenFirstMatch(name: string, pats: seq<Pattern>, k: nat)
    requires k < |pats| && Exec(name, pats[k]).Some?
    requires forall j :: 0 <= j < k ==> Exec(name, pats[j]).None?
    ensures var g := Exec(name, pats[k]).value;
      Rewritten(name, pats) == pats[k].open + ZerosFor(g.digits) + g.digits + pats[k].close
  {
    if k > 0 {
      assert Exec(name, pats[0]).None?;
      assert forall j :: 0 <= j < k - 1 ==> pats[1..][j] == pats[j + 1];
      RewrittenFirstMatch(name, pats[1..], k - 1);
    }
  }

  /** A name no pattern matches is left as it is. */
  lemma {:induction false} RewrittenNoMatch(name: string, pats: seq<Pattern>)
    requires forall j :: 0 <= j < |pats| ==> Exec(name, pats[j]).None?
    ensures Rewritten(name, pats) == name
  {
    if pats != [] {
      assert Exec(name, pats[0]).None?;
      assert forall j :: 0 <= j < |pats| - 1 ==> pats[1..][j] == pats[j + 1];
      RewrittenNoMatch(name, pats[1..]);
    }
  }

  /** The padded index is exactly ten characters for up to ten digits, and
      a run of ten or more digits is kept as it is. */
  lemma PaddedLength(digits: string)
    requires |digits| > 0
    ensures |ZerosFor(digits) + digits| == (if |digits| >= 10 then |digits| else 10)
    ensures |digits| >= 10 ==> ZerosFor(digits) + digits == digits
  {
    if |digits| >= 10 {
      assert ZerosFor(digits) == [];
    }
  }

  lemma DigitPrefixStops(digits: string, rest: string)
    requires AllDigits(digits) && (rest == [] || !IsDigit(rest[0]))
    ensures DigitPrefix(digits + rest) == digits
  {
    var s := digits + rest;
    var p := DigitPrefix(s);
    assert forall i :: 0 <= i < |digits| ==> s[i] == digits[i];
    assert rest != [] ==> s[|digits|] == rest[0];
    assert |p| == |digits|;
    assert p == s[..|digits|] == digits;
  }

  /** An element index `[digits]` is rewritten by the first pattern, to the
      padded index. */
  lemma BracketRewritten(digits: string)
    requires AllDigits(digits) && digits != []
    ensures Rewritten("[" + digits + "]", SortingPatterns) == "[" + (ZerosFor(digits) + digits) + "]"
  {
    var name := "[" + digits + "]";
    var pat := SortingPatterns[0];
    assert pat == Pattern("[", "]");
    assert DigitPrefix(name[0..][1..]) == digits by {
      assert name[0..][1..] == digits + "]";
      DigitPrefixStops(digits, "]");
    }
    assert MatchesAt(name, pat, 0) by {
      assert name[0..][1..][|digits|..] == "]";
    }
    assert Exec(name, pat) == Some(Groups("[", digits, "]"));
    assert "[" + ZerosFor(digits) + digits + "]" == "[" + (ZerosFor(digits) + digits) + "]";
  }

  // ------------------------------------------------ padded indices in order

  function Pow10(n: nat): (r: nat)
    ensures r > 0
  {
    if n == 0 then 1 else 10 * Pow10(n - 1)
  }

  lemma {:induction false} DigitsBound(s: string)
    requires AllDigits(s)
    ensures DigitsValue(s) < Pow10(|s|)
  {
    if s != [] {
      DigitsBound(s[..|s| - 1]);
    }
  }

  /** The value of a digit string read from its first digit. */
  lemma {:induction false} DigitsCons(c: char, s: string)
    requires IsDigit(c) && AllDigits(s)
    ensures AllDigits([c] + s)
    ensures DigitsValue([c] + s) == DigitValue(c) * Pow10(|s|) + DigitsValue(s)
  {
    var cs := [c] + s;
    assert AllDigits(cs) by {
      forall i | 0 <= i < |cs| ensures IsDigit(cs[i]) {
        if i > 0 {
          assert cs[i] == s[i - 1];
        }
      }
    }
    if s != [] {
      var init := s[..|s| - 1];
      assert cs[..|cs| - 1] == [c] + init;
      DigitsCons(c, init);
      calc {
        DigitsValue(cs);
        DigitsValue([c] + init) * 10 + DigitValue(s[|s| - 1]);
        (DigitValue(c) * Pow10(|init|) + DigitsValue(init)) * 10 + DigitValue(s[|s| - 1]);
        DigitValue(c) * (Pow10(|init|) * 10) + (DigitsValue(init) * 10 + DigitValue(s[|s| - 1]));
        DigitValue(c) * Pow10(|s|) + DigitsValue(s);
      }
    }
  }

  lemma LeadingDigitOrder(da: nat, db: nat, va: nat, vb: nat, p: nat)
    requires da < db && va < p
    ensures da * p + va <= db * p + vb
  {
    assert (da + 1) * p <= db * p;
  }

  /** Among digit strings of one length, the lexicographic order is the
      order of their values. */
  lemma {:induction false} StrLeDigits(a: string, b: string)
    requires AllDigits(a) && AllDigits(b) && |a| == |b| && StrLe(a, b)
    ensures DigitsValue(a) <= DigitsValue(b)
  {
    if a != [] {
      var ta, tb := a[1..], b[1..];
      DigitsCons(a[0], ta);
      DigitsCons(b[0], tb);
      assert [a[0]] + ta == a && [b[0]] + tb == b;
      if a[0] == b[0] {
        StrLeDigits(ta, tb);
      } else {
        DigitsBound(ta);
        LeadingDigitOrder(DigitValue(a[0]), DigitValue(b[0]), DigitsValue(ta), DigitsValue(tb), Pow10(|ta|));
      }
    }
  }

  /** Leading zeros do not change the value. */
  lemma {:induction false} ZerosValue(z: string, s: string)
    requires AllDigits(s) && forall i :: 0 <= i < |z| ==> z[i] == '0'
    ensures AllDigits(z + s) && DigitsValue(z + s) == DigitsValue(s)
  {
    if z != [] {
      var t := z[1..];
      assert forall i :: 0 <= i < |t| ==> t[i] == z[i + 1];
      ZerosValue(t, s);
      assert z + s == ['0'] + (t + s);
      assert DigitValue('0') == 0;
      DigitsCons('0', t + s);
    } else {
      assert z + s == s;
    }
  }

  /** Padded indices of up to ten digits are ten characters long and are
      in lexicographic order exactly when they are in order of value. */
  lemma PaddedOrder(a: string, b: string)
    requires AllDigits(a) && AllDigits(b) && 0 < |a| <= 10 && 0 < |b| <= 10
    requires DigitsValue(a) < DigitsValue(b)
    ensures var pa, pb := ZerosFor(a) + a, ZerosFor(b) + b;
      |pa| == |pb| && StrLe(pa, pb) && pa != pb
  {
    var pa, pb := ZerosFor(a) + a, ZerosFor(b) + b;
    ZerosValue(ZerosFor(a), a);
    ZerosValue(ZerosFor(b), b);
    if StrLe(pb, pa) {
      StrLeDigits(pb, pa);
    }
    StrLeTotal(pa, pb);
  }

  /** Strictly ordered strings of one length stay so between brackets. */
  lemma {:induction false} StrLeSameLength(x: string, y: string, q: string)
    requires |x| == |y| && StrLe(x, y) && x != y
    ensures StrLe(x + q, y + q) && !StrLe(y + q, x + q)
  {
    assert (x + q)[0] == x[0] && (y + q)[0] == y[0];
    if x[0] == y[0] {
      assert x[1..] != y[1..] by {
        assert x == [x[0]] + x[1..] && y == [y[0]] + y[1..];
      }
      assert (x + q)[1..] == x[1..] + q && (y + q)[1..] == y[1..] + q;
      StrLeSameLength(x[1..], y[1..], q);
    }
  }

  lemma BracketOrder(x: string, y: string)
    requires |x| == |y| && StrLe(x, y) && x != y
    ensures StrLe("[" + x + "]", "[" + y + "]") && !StrLe("[" + y + "]", "[" + x + "]")
  {
    StrLeSameLength(x, y, "]");
    var bx, bb := "[" + x + "]", "[" + y + "]";
    assert bx[0] == bb[0] == '[';
    assert bx[1..] == x + "]" && bb[1..] == y + "]";
  }

  /** For indices of up to ten digits, the padded `[a]` sorts strictly
      before the padded `[b]` when `a` is below `b` in value. */
  lemma PaddedIndexOrder(a: string, b: string)
    requires AllDigits(a) && AllDigits(b) && 0 < |a| <= 10 && 0 < |b| <= 10
    requires DigitsValue(a) < DigitsValue(b)
    ensures var ra := Rewritten("[" + a + "]", SortingPatterns);
      var rb := Rewritten("[" + b + "]", SortingPatterns);
      StrLe(ra, rb) && !StrLe(rb, ra)
  {
    BracketRewritten(a);
    BracketRewritten(b);
    PaddedOrder(a, b);
    BracketOrder(ZerosFor(a) + a, ZerosFor(b) + b);
  }

  // ---------------------------------------------------------- the listing

  /** A property under its sorting name; the other fields are kept. */
  function Renamed(p: Property): Property {
    p.(name := Rewritten(p.name, SortingPatterns))
  }

  /** The properties in display order: renamed, then sorted by name. */
  function DisplayOrder(ps: seq<Property>): (r: seq<Property>)
    ensures |r| == |ps|
    ensures multiset(r) == multiset(seq(|ps|, i requires 0 <= i < |ps| => Renamed(ps[i])))
    ensures Sorting.SortedBy(r, NameLe)
  {
    SortByName(seq(|ps|, i requires 0 <= i < |ps| => Renamed(ps[i])))
  }

  // ---------------------------------------------------------------- rows

  /** `value && value[0] !== '@'`: a value that is shown, not expanded. */
  predicate IsValue(value: Option<string>) {
    value.Some? && value.value != "" && value.value[0] != '@'
  }

  /** What a row does when clicked. */
  datatype Click = NoHandler | ToggleValue(value: Option<string>)

  /** The row of one property: its expand marker, its name, the text after
      the name, and its click handler. */
  datatype Row = Row(marker: string, name: string, shown: string, click: Click)

  /** The row the panel means to show: `-` for a property whose children
      are listed, `+` for one still to be expanded. */
  function RowOf(p: Property): (r: Row)
    ensures r.click != NoHandler <==> !IsValue(p.value)
    ensures r.click != NoHandler ==> r.click == ToggleValue(p.value)
    ensures r.marker == "" <==> IsValue(p.value)
    ensures !IsValue(p.value) ==> r.marker == (if p.property.Absent? then "+" else "-")
    ensures IsValue(p.value) ==> r.shown == " = " + p.value.value
    ensures !IsValue(p.value) ==> r.shown == ""
    ensures r.name == p.name
  {
    var isValue := IsValue(p.value);
    Row(if !isValue then (if p.property.Absent? then "+" else "-") else "",
        p.name,
        if isValue then " = " + p.value.value else "",
        if isValue then NoHandler else ToggleValue(p.value))
  }

  /** The row as the component computes it: it reads a `properties` field,
      which a parsed property never has (its children are in `property`),
      so every property that is not a plain value shows `+`. */
  function RowAsWritten(p: Property): (r: Row)
    ensures r.marker == (if IsValue(p.value) then "" else "+")
    ensures r.name == p.name && r.shown == RowOf(p).shown && r.click == RowOf(p).click
  {
    var isValue := IsValue(p.value);
    Row(if !isValue then "+" else "",
        p.name,
        if isValue then " = " + p.value.value else "",
        if isValue then NoHandler else ToggleValue(p.value))
  }

  /** An object property whose children have arrived is marked as expanded
      by the intended row and as collapsed by the row as written. */
  lemma ExpandedObjectShownCollapsed(child: Property)
    ensures var p := Property("o", Some("@Object"), ParseFlags(""), Present([child]));
      RowOf(p).marker == "-" && RowAsWritten(p).marker == "+"
  {
    var p := Property("o", Some("@Object"), ParseFlags(""), Present([child]));
    assert p.value.value[0] == '@';
  }
}
