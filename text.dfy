/** The JavaScript string operations the handlers and components rely on,
    as functions on `seq<char>`: `trim`, `includes`, `toLowerCase`,
    `split` on one character, `join`, and the filtering of characters by a
    regular-expression class. */
module Text {
  import opened Common

  /** The characters `String.prototype.trim` and `parseInt` skip: the
      ECMAScript WhiteSpace set (tab, vertical tab, form feed, space,
      no-break space, the byte-order mark and every Unicode space separator)
      and its LineTerminator set (line feed, carriage return, the line and
      paragraph separators). */
  predicate IsSpace(c: char)
  {
    c == ' ' || c == '\t' || c == '\n' || c == '\r' || c == '\U{000B}' || c == '\U{000C}'
    || c == '\U{00A0}' || c == '\U{FEFF}' || c == '\U{2028}' || c == '\U{2029}'
    || c == '\U{1680}' || ('\U{2000}' <= c <= '\U{200A}')
    || c == '\U{202F}' || c == '\U{205F}' || c == '\U{3000}'
  }

  function TrimStart(s: string): string
  {
    if s != [] && IsSpace(s[0]) then TrimStart(s[1..]) else s
  }

  /** `TrimStart` keeps a suffix that does not start with white space, and
      what it drops is white space. */
  lemma {:induction false} TrimStartDropsSpace(s: string)
    ensures |TrimStart(s)| <= |s| && TrimStart(s) == s[|s| - |TrimStart(s)|..]
    ensures TrimStart(s) != [] ==> !IsSpace(TrimStart(s)[0])
    ensures forall i :: 0 <= i < |s| - |TrimStart(s)| ==> IsSpace(s[i])
    decreases |s|
  {
    if s != [] && IsSpace(s[0]) {
      TrimStartDropsSpace(s[1..]);
      assert forall i :: 1 <= i < |s| ==> s[i] == s[1..][i - 1];
    }
  }

  function TrimEnd(s: string): (r: string)
    ensures |r| <= |s| && r == s[..|r|]
    ensures r != [] ==> !IsSpace(r[|r| - 1])
  {
    if s != [] && IsSpace(s[|s| - 1]) then TrimEnd(s[..|s| - 1]) else s
  }

  /** What `TrimEnd` drops is white space. */
  lemma {:induction false} TrimEndDropsSpace(s: string)
    ensures forall i :: |TrimEnd(s)| <= i < |s| ==> IsSpace(s[i])
    decreases |s|
  {
    if s != [] && IsSpace(s[|s| - 1]) {
      TrimEndDropsSpace(s[..|s| - 1]);
    }
  }

  /** Every character is white space: what `trim()` turns into "". */
  predicate AllSpace(s: string)
  {
    forall k :: 0 <= k < |s| ==> IsSpace(s[k])
  }

  /** No white space at either end. */
  predicate Trimmed(s: string)
  {
    s == [] || (!IsSpace(s[0]) && !IsSpace(s[|s| - 1]))
  }

  /** `s.trim()`: the infix of `s` left once white space is dropped at both ends. */
  function Trim(s: string): (r: string)
    ensures Trimmed(r)
  {
    var t := TrimStart(s);
    var r := TrimEnd(t);
    TrimStartDropsSpace(s);
    TrimEndDropsSpace(t);
    TrimShape(s, t, r);
    r
  }

  /** `s.trim()` is an infix of `s` with only white space around it, and is
      empty exactly when `s` is all white space. */
  lemma TrimFacts(s: string)
    ensures exists i :: Infix(s, Trim(s), i) && (forall k :: 0 <= k < i ==> IsSpace(s[k]))
                        && (forall k :: i + |Trim(s)| <= k < |s| ==> IsSpace(s[k]))
    ensures Trim(s) == [] <==> forall k :: 0 <= k < |s| ==> IsSpace(s[k])
  {
    var t := TrimStart(s);
    var r := TrimEnd(t);
    TrimStartDropsSpace(s);
    TrimEndDropsSpace(t);
    TrimShape(s, t, r);
    assert Trim(s) == r;
    assert Infix(s, r, |s| - |t|);
  }

  /** What the two halves of `Trim` leave, stated on their results. */
  lemma TrimShape(s: string, t: string, r: string)
    requires |t| <= |s| && t == s[|s| - |t|..]
    requires forall i :: 0 <= i < |s| - |t| ==> IsSpace(s[i])
    requires t != [] ==> !IsSpace(t[0])
    requires |r| <= |t| && r == t[..|r|]
    requires forall i :: |r| <= i < |t| ==> IsSpace(t[i])
    requires r != [] ==> !IsSpace(r[|r| - 1])
    ensures Trimmed(r)
    ensures Infix(s, r, |s| - |t|)
    ensures forall k :: |s| - |t| + |r| <= k < |s| ==> IsSpace(s[k])
    ensures r == [] <==> forall k :: 0 <= k < |s| ==> IsSpace(s[k])
  {
    var n := |s| - |t|;
    assert s[n..n + |r|] == t[..|r|];
    forall k | n + |r| <= k < |s| ensures IsSpace(s[k]) {
      assert s[k] == t[k - n];
    }
    if r != [] {
      assert r[0] == t[0] == s[n];
      assert !IsSpace(s[n]);
    }
  }

  /** `r` occurs in `s` at position `i`. */
  predicate Infix(s: string, r: string, i: int)
  {
    0 <= i && i + |r| <= |s| && s[i..i + |r|] == r
  }

  /** `s.includes(sub)`, as the source's string check. */
  predicate Contains(s: string, sub: string)
    decreases |s|
  {
    (|sub| <= |s| && s[..|sub|] == sub) || (s != [] && Contains(s[1..], sub))
  }

  /** `Contains` agrees with the positional definition of an occurrence. */
  lemma {:induction false} ContainsIffInfix(s: string, sub: string)
    ensures Contains(s, sub) <==> exists i :: Infix(s, sub, i)
    decreases |s|
  {
    if |sub| <= |s| && s[..|sub|] == sub {
      assert Infix(s, sub, 0);
    } else if s == [] {
      assert forall i :: !Infix(s, sub, i);
    } else {
      ContainsIffInfix(s[1..], sub);
      if Contains(s[1..], sub) {
        var i :| Infix(s[1..], sub, i);
        assert s[i + 1..i + 1 + |sub|] == s[1..][i..i + |sub|];
        assert Infix(s, sub, i + 1);
      }
      if exists i :: Infix(s, sub, i) {
        var i :| Infix(s, sub, i);
        assert i != 0;
        assert s[1..][i - 1..i - 1 + |sub|] == s[i..i + |sub|];
        assert Infix(s[1..], sub, i - 1);
      }
    }
  }

  /** A string that ends with `sub` contains it. */
  lemma ContainsSuffix(prefix: string, sub: string)
    ensures Contains(prefix + sub, sub)
  {
    assert (prefix + sub)[|prefix|..|prefix| + |sub|] == sub;
    assert Infix(prefix + sub, sub, |prefix|);
    ContainsIffInfix(prefix + sub, sub);
  }

  /** `toLowerCase` on ASCII letters. */
  function LowerChar(c: char): (d: char)
    ensures ('A' <= c <= 'Z') ==> 'a' <= d <= 'z' && d as int == c as int + 32
    ensures !('A' <= c <= 'Z') ==> d == c
  {
    if 'A' <= c <= 'Z' then (c as int + 32) as char else c
  }

  function ToLower(s: string): (r: string)
    ensures |r| == |s|
    ensures forall i :: 0 <= i < |s| ==> r[i] == LowerChar(s[i])
  {
    seq(|s|, i requires 0 <= i < |s| => LowerChar(s[i]))
  }

  /** `s.split(c)`: the pieces between occurrences of `c`; never empty. */
  function Split(s: string, c: char): (r: seq<string>)
    ensures |r| >= 1
    ensures forall p :: p in r ==> c !in p
    decreases |s|
  {
    if s == [] then [""]
    else
      var rest := Split(s[1..], c);
      if s[0] == c then [""] + rest
      else [[s[0]] + rest[0]] + rest[1..]
  }

  /** `parts.join(sep)`. */
  function Join(parts: seq<string>, sep: string): string
    decreases |parts|
  {
    if |parts| == 0 then ""
    else if |parts| == 1 then parts[0]
    else parts[0] + sep + Join(parts[1..], sep)
  }

  /** Text with no separator in front of the rest joins the first piece. */
  lemma {:induction false} SplitPrepend(p: string, s: string, c: char)
    requires c !in p
    ensures Split(p + s, c) == [p + Split(s, c)[0]] + Split(s, c)[1..]
    decreases |p|
  {
    if p != [] {
      assert (p + s)[1..] == p[1..] + s;
      SplitPrepend(p[1..], s, c);
      assert [p[0]] + (p[1..] + Split(s, c)[0]) == p + Split(s, c)[0];
    } else {
      var x := Split(s, c);
      assert p + s == s;
      assert p + x[0] == x[0];
      assert [x[0]] + x[1..] == x;
    }
  }

  /** Splitting the joined pieces gives the pieces back when none contains
      the separator. */
  lemma {:induction false} SplitJoin(parts: seq<string>, c: char)
    requires |parts| >= 1
    requires forall p :: p in parts ==> c !in p
    ensures Split(Join(parts, [c]), c) == parts
    decreases |parts|
  {
    if |parts| == 1 {
      SplitPrepend(parts[0], "", c);
      assert parts[0] + "" == parts[0];
    } else {
      var tail := Join(parts[1..], [c]);
      SplitJoin(parts[1..], c);
      assert Join(parts, [c]) == parts[0] + ([c] + tail);
      SplitPrepend(parts[0], [c] + tail, c);
      assert ([c] + tail)[1..] == tail;
      assert parts[0] + "" == parts[0];
      assert parts == [parts[0]] + parts[1..];
    }
  }

  // ----- comma-separated tag lists -----

  /** `.map(s => s.trim()).filter(Boolean)`. */
  function CleanTags(parts: seq<string>): (r: seq<string>)
    ensures |r| <= |parts|
    ensures forall t :: t in r ==> t != "" && Trimmed(t)
    decreases |parts|
  {
    if parts == [] then []
    else
      var t := Trim(parts[0]);
      if t == "" then CleanTags(parts[1..]) else [t] + CleanTags(parts[1..])
  }

  /** `text.split(",").map(s => s.trim()).filter(Boolean)`, the way both the
      admin form and the profile route turn a comma list into tags. */
  function SplitTags(text: string): (tags: seq<string>)
    ensures forall t :: t in tags ==> t != "" && Trimmed(t) && ',' !in t
  {
    var tags := CleanTags(Split(text, ','));
    CommaFree(Split(text, ','));
    tags
  }

  lemma CommaFree(parts: seq<string>)
    requires forall p :: p in parts ==> ',' !in p
    ensures forall t :: t in CleanTags(parts) ==> ',' !in t
  {
    forall t | t in CleanTags(parts) ensures ',' !in t {
      CleanTagsFrom(parts, t);
      var p :| p in parts && t == Trim(p);
      TrimKeepsChars(p);
    }
  }

  /** Trimming only drops characters. */
  lemma TrimKeepsChars(s: string)
    ensures forall c :: c in Trim(s) ==> c in s
  {
    TrimStartDropsSpace(s);
  }

  lemma {:induction false} CleanTagsFrom(parts: seq<string>, t: string)
    requires t in CleanTags(parts)
    ensures exists p :: p in parts && t == Trim(p)
    decreases |parts|
  {
    if Trim(parts[0]) != "" && t == Trim(parts[0]) {
      assert parts[0] in parts;
    } else {
      CleanTagsFrom(parts[1..], t);
      var p :| p in parts[1..] && t == Trim(p);
      assert p in parts;
    }
  }

  /** A trimmed piece left of a comma-free padding trims back to itself. */
  lemma {:induction false} TrimPadded(pad: string, t: string)
    requires forall k :: 0 <= k < |pad| ==> IsSpace(pad[k])
    requires t != [] && Trimmed(t)
    ensures Trim(pad + t) == t
    decreases |pad|
  {
    if pad == [] {
      assert pad + t == t;
    } else {
      assert (pad + t)[1..] == pad[1..] + t;
      TrimPadded(pad[1..], t);
    }
  }

  /** Tags as the expert dashboard shows them: `specialization.join(", ")`. */
  function JoinTags(tags: seq<string>): string
  {
    Join(tags, ", ")
  }

  lemma {:induction false} CleanSplitJoined(pad: string, tags: seq<string>)
    requires |tags| >= 1
    requires pad == "" || pad == " "
    requires forall t :: t in tags ==> t != "" && Trimmed(t) && ',' !in t
    ensures CleanTags(Split(pad + JoinTags(tags), ',')) == tags
    decreases |tags|
  {
    var t0 := tags[0];
    assert t0 in tags;
    if |tags| == 1 {
      CleanSplitOne(pad, t0);
      assert pad + JoinTags(tags) == pad + t0;
      assert tags == [t0];
    } else {
      assert forall t :: t in tags[1..] ==> t in tags;
      CleanSplitJoined(" ", tags[1..]);
      CleanSplitStep(pad, t0, JoinTags(tags[1..]));
      JoinTagsCons(pad, tags);
      assert tags == [t0] + tags[1..];
    }
  }

  lemma CleanSplitOne(pad: string, t0: string)
    requires pad == "" || pad == " "
    requires t0 != "" && Trimmed(t0) && ',' !in t0
    ensures CleanTags(Split(pad + t0, ',')) == [t0]
  {
    TrimPadded(pad, t0);
    SplitAlone(pad + t0);
    CleanCons(pad + t0, []);
  }

  lemma CleanSplitStep(pad: string, t0: string, rest: string)
    requires pad == "" || pad == " "
    requires t0 != "" && Trimmed(t0) && ',' !in t0
    ensures CleanTags(Split((pad + t0) + ([','] + (" " + rest)), ','))
            == [t0] + CleanTags(Split(" " + rest, ','))
  {
    TrimPadded(pad, t0);
    SplitAtComma(pad + t0, " " + rest);
    CleanCons(pad + t0, Split(" " + rest, ','));
  }

  lemma JoinTagsCons(pad: string, tags: seq<string>)
    requires |tags| >= 2
    ensures pad + JoinTags(tags) == (pad + tags[0]) + ([','] + (" " + JoinTags(tags[1..])))
  {
    var rest := JoinTags(tags[1..]);
    assert JoinTags(tags) == tags[0] + ", " + rest;
    assert ", " == [','] + " ";
  }

  lemma CleanCons(p: string, parts: seq<string>)
    requires Trim(p) != ""
    ensures CleanTags([p] + parts) == [Trim(p)] + CleanTags(parts)
  {
    assert ([p] + parts)[1..] == parts;
  }

  lemma SplitAlone(p: string)
    requires ',' !in p
    ensures Split(p, ',') == [p]
  {
    SplitPrepend(p, "", ',');
    assert p + "" == p;
  }

  lemma SplitAtComma(p: string, rest: string)
    requires ',' !in p
    ensures Split(p + ([','] + rest), ',') == [p] + Split(rest, ',')
  {
    SplitPrepend(p, [','] + rest, ',');
    assert ([','] + rest)[1..] == rest;
    assert p + "" == p;
  }

  /** Round trip: joining tags with ", " and splitting them again gives the
      same list, provided every tag is non-empty, trimmed and comma-free. */
  lemma JoinThenSplitTags(tags: seq<string>)
    requires forall t :: t in tags ==> t != "" && Trimmed(t) && ',' !in t
    ensures SplitTags(JoinTags(tags)) == tags
  {
    if tags == [] {
      assert Split("", ',') == [""];
      assert Trim("") == "";
    } else {
      CleanSplitJoined("", tags);
      assert "" + JoinTags(tags) == JoinTags(tags);
    }
  }

  // ----- character classes -----

  /** `[a-zA-Z0-9]`. */
  predicate IsAlnum(c: char)
  {
    ('a' <= c <= 'z') || ('A' <= c <= 'Z') || ('0' <= c <= '9')
  }

  /** `s.replace(/[^a-zA-Z0-9]/g, '')`. */
  function KeepAlnum(s: string): (r: string)
    ensures |r| <= |s|
    ensures forall c :: c in r <==> c in s && IsAlnum(c)
    decreases |s|
  {
    if s == [] then []
    else (if IsAlnum(s[0]) then [s[0]] else []) + KeepAlnum(s[1..])
  }

  // ----- decimal integers: `parseInt(s)` and `n.toString()` -----

  predicate IsDigit(c: char)
  {
    '0' <= c <= '9'
  }

  predicate AllDigits(s: string)
  {
    forall i :: 0 <= i < |s| ==> IsDigit(s[i])
  }

  /** The longest prefix of `s` made of decimal digits. */
  function DigitPrefix(s: string): (d: string)
    ensures |d| <= |s| && d == s[..|d|]
    ensures |d| < |s| ==> !IsDigit(s[|d|])
    decreases |s|
  {
    if s != [] && IsDigit(s[0]) then [s[0]] + DigitPrefix(s[1..]) else []
  }

  /** The prefix `DigitPrefix` takes is made of digits only. */
  lemma {:induction false} DigitPrefixDigits(s: string)
    ensures AllDigits(DigitPrefix(s))
    decreases |s|
  {
    if s != [] && IsDigit(s[0]) {
      DigitPrefixDigits(s[1..]);
    }
  }

  /** The value of a string of decimal digits, most significant first. */
  function DigitsValue(d: string): (n: nat)
    requires AllDigits(d)
    decreases |d|
  {
    if d == [] then 0
    else DigitsValue(d[..|d| - 1]) * 10 + (d[|d| - 1] as int - '0' as int)
  }

  /** `parseInt(s)` in base 10: leading white space is skipped, one sign is
      read, then the longest run of digits; with no digits the result is
      NaN, here `None`. */
  function ParseInt(s: string): (r: Option<int>)
    ensures r.None? <==> DigitPrefix(Unsigned(TrimStart(s))) == []
  {
    var t := TrimStart(s);
    var d := DigitPrefix(Unsigned(t));
    DigitPrefixDigits(Unsigned(t));
    if d == [] then None
    else
      var v: int := DigitsValue(d);
      if t[0] == '-' then Some(-v) else Some(v)
  }

  /** `t` without its leading sign, if any. */
  function Unsigned(t: string): (u: string)
    ensures u == t || (t != [] && (t[0] == '-' || t[0] == '+') && u == t[1..])
  {
    if t != [] && (t[0] == '-' || t[0] == '+') then t[1..] else t
  }

  function DigitChar(k: nat): (c: char)
    requires k < 10
    ensures IsDigit(c) && c as int - '0' as int == k
  {
    ('0' as int + k) as char
  }

  /** The decimal digits of `n`, without leading zeros. */
  function NatToString(n: nat): (s: string)
    ensures s != [] && AllDigits(s)
    decreases n
  {
    if n < 10 then [DigitChar(n)] else NatToString(n / 10) + [DigitChar(n % 10)]
  }

  /** `n.toString()` for an integer. */
  function IntToString(n: int): (s: string)
    ensures s != []
  {
    if n < 0 then "-" + NatToString(-n) else NatToString(n)
  }

  lemma {:induction false} NatToStringValue(n: nat)
    ensures DigitsValue(NatToString(n)) == n
    decreases n
  {
    var s := NatToString(n);
    if n >= 10 {
      NatToStringValue(n / 10);
      assert s[..|s| - 1] == NatToString(n / 10);
    }
  }

  lemma {:induction false} DigitPrefixAll(s: string)
    requires AllDigits(s)
    ensures DigitPrefix(s) == s
    decreases |s|
  {
    if s != [] {
      DigitPrefixAll(s[1..]);
    }
  }

  lemma DigitsUnchanged(digits: string)
    requires digits != [] && AllDigits(digits)
    ensures TrimStart(digits) == digits
    ensures Unsigned(digits) == digits
  {
    var c := digits[0];
    assert IsDigit(c);
    assert !IsSpace(c);
  }

  lemma NatToStringParses(n: nat)
    ensures TrimStart(NatToString(n)) == NatToString(n)
    ensures Unsigned(NatToString(n)) == NatToString(n)
    ensures DigitPrefix(NatToString(n)) == NatToString(n)
    ensures DigitsValue(NatToString(n)) == n
  {
    var digits := NatToString(n);
    NatToStringValue(n);
    DigitPrefixAll(digits);
    DigitsUnchanged(digits);
  }

  /** `parseInt(n.toString()) === n`: the profile form's experience text
      parses back to the stored number. */
  lemma IntToStringParses(n: int)
    ensures ParseInt(IntToString(n)) == Some(n)
  {
    if n < 0 {
      MinusDigitsParse(-n);
      assert IntToString(n) == "-" + NatToString(-n);
    } else {
      var digits := NatToString(n);
      NatToStringParses(n);
      assert IntToString(n) == digits;
      assert DigitPrefix(Unsigned(TrimStart(digits))) == digits;
    }
  }

  /** A minus sign followed by the digits of `m` parses to `-m`. */
  lemma MinusDigitsParse(m: nat)
    ensures ParseInt("-" + NatToString(m)) == Some(-(m as int))
  {
    var digits := NatToString(m);
    NatToStringParses(m);
    var s := "-" + digits;
    assert s[0] == '-' && !IsSpace(s[0]);
    assert TrimStart(s) == s;
    assert s[1..] == digits;
    assert Unsigned(s) == digits;
    assert DigitPrefix(Unsigned(TrimStart(s))) == digits;
  }
}
