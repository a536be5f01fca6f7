/** Fragment URIs: the base of the manifest URI, and the expansion of a stream's URL template with
    a bitrate and a start time. */
module UrlTemplate {
  import opened Common

  // ---- strings ----

  function IndexOf(s: string, c: char): (r: Option<nat>)
    ensures r.Some? ==> r.value < |s| && s[r.value] == c && c !in s[..r.value]
    ensures r.None? ==> c !in s
  {
    if s == "" then None
    else if s[0] == c then Some(0)
    else
      match IndexOf(s[1..], c)
      case None => None
      case Some(i) => assert s[..i + 1] == [s[0]] + s[1..][..i]; Some(i + 1)
  }

  /** `g_strsplit`: at most max tokens, the last one with everything that is left; the empty
      string has no token at all. */
  function StrSplit(s: string, c: char, max: nat): (r: seq<string>)
    requires max > 0
    ensures |r| <= max
  {
    if s == "" then [] else Tokens(s, c, max)
  }

  function Tokens(s: string, c: char, max: nat): (r: seq<string>)
    requires max > 0
    ensures 0 < |r| <= max
    decreases max
  {
    var i := IndexOf(s, c);
    if i.None? || max == 1 then [s]
    else [s[..i.value]] + Tokens(s[i.value + 1..], c, max - 1)
  }

  /** Decimal digits of a natural number. */
  function Digits(n: nat): (s: string)
    ensures s != "" && forall i :: 0 <= i < |s| ==> IsDigit(s[i])
    ensures |s| > 1 ==> s[0] != '0'
  {
    if n < 10 then [DigitChar(n)] else Digits(n / 10) + [DigitChar(n % 10)]
  }

  predicate IsDigit(c: char) {
    '0' <= c <= '9'
  }

  function DigitChar(n: nat): (c: char)
    requires n < 10
    ensures IsDigit(c) && DigitValue(c) == n
  {
    ('0' as int + n) as char
  }

  function DigitValue(c: char): (n: nat)
    requires IsDigit(c)
    ensures n < 10
  {
    c as int - '0' as int
  }

  /** `%d` of an int. */
  function Decimal(n: int): string {
    if n < 0 then "-" + Digits(-n) else Digits(n)
  }

  // ---- the two operations ----

  /** `gst_ssm_parse_new`: everything up to the last '/' of the manifest URI. Without a '/' the code
      does pointer arithmetic on a null pointer. */
  function BaseOf(uri: string): Option<string>
    decreases |uri|
  {
    if uri == "" then None
    else if uri[|uri| - 1] == '/' then Some(uri)
    else BaseOf(uri[..|uri| - 1])
  }

  /** The URI of a fragment. None where the code reads a token that does not exist: fewer than two
      '{', or nothing between them. A token without '}' ends the URI early, because joining stops
      at its missing second part. */
  function Expand(base: string, template: string, bitrate: nat, time: nat): Option<string> {
    var s1 := StrSplit(template, '{', 3);
    if |s1| < 3 || s1[1] == "" then None
    else
      var s2 := StrSplit(s1[1], '}', 2);
      var head := base + s1[0] + Decimal(Signed32(bitrate));
      if s1[2] == "" then None
      else
        var s3 := StrSplit(s1[2], '}', 2);
        if |s2| < 2 then Some(head)
        else if |s3| < 2 then Some(head + s2[1] + Digits(time))
        else Some(head + s2[1] + Digits(time) + s3[1])
  }

  // ---- what they mean ----

  /** The base is the longest prefix that ends in '/'. */
  lemma {:induction false} BaseIsLongest(uri: string)
    ensures BaseOf(uri).None? <==> '/' !in uri
    ensures BaseOf(uri).Some? ==>
              var b := BaseOf(uri).value;
              b != "" && b <= uri && b[|b| - 1] == '/' && forall k :: |b| <= k < |uri| ==> uri[k] != '/'
    decreases |uri|
  {
    if uri != "" && uri[|uri| - 1] != '/' {
      BaseIsLongest(uri[..|uri| - 1]);
      assert uri == uri[..|uri| - 1] + [uri[|uri| - 1]];
    }
  }

  lemma {:induction false} FirstIndex(a: string, c: char, b: string)
    requires c !in a
    ensures IndexOf(a + [c] + b, c) == Some(|a|)
    decreases |a|
  {
    if a != "" {
      assert (a + [c] + b)[1..] == a[1..] + [c] + b;
      FirstIndex(a[1..], c, b);
    }
  }

  lemma {:induction false} SplitOnce(a: string, c: char, b: string, max: nat)
    requires c !in a && max > 1
    ensures StrSplit(a + [c] + b, c, max) == [a] + Tokens(b, c, max - 1)
  {
    var s := a + [c] + b;
    FirstIndex(a, c, b);
    assert s[..|a|] == a && s[|a| + 1..] == b;
  }

  lemma {:induction false} SplitLast(a: string, c: char, b: string)
    requires c !in a
    ensures StrSplit(a + [c] + b, c, 2) == [a, b] && Tokens(a + [c] + b, c, 2) == [a, b]
  {
    SplitOnce(a, c, b, 2);
  }

  lemma {:induction false} SplitTwice(p: string, a: string, c: char, b: string)
    requires c !in p && c !in a
    ensures StrSplit(p + [c] + (a + [c] + b), c, 3) == [p, a, b]
  {
    SplitOnce(p, c, a + [c] + b, 3);
    SplitLast(a, c, b);
  }

  /** What stands behind the first '}'. */
  function Behind(s: string): string
    requires '}' in s
  {
    match IndexOf(s, '}')
    case None => ""
    case Some(i) => s[i + 1..]
  }

  lemma {:induction false} SplitAtBrace(s: string)
    requires s != ""
    ensures StrSplit(s, '}', 2) == if '}' in s then [s[..|s| - |Behind(s)| - 1], Behind(s)] else [s]
  {
    var i := IndexOf(s, '}');
    if i.Some? {
      assert Tokens(s, '}', 2) == [s[..i.value]] + [s[i.value + 1..]];
    }
  }

  /** Every template with two '{' in it: nothing may be missing behind either of them; a field without its
      '}' ends the URI at the number in front of it. */
  lemma {:induction false} ExpandForm(base: string, template: string, pre: string, a: string, b: string, bitrate: nat,
                                      time: nat)
    requires template == pre + "{" + (a + "{" + b) && '{' !in pre && '{' !in a
    ensures Expand(base, template, bitrate, time) ==
            if a == "" || b == "" then None
            else if '}' !in a then Some(base + pre + Decimal(Signed32(bitrate)))
            else if '}' !in b then Some(base + pre + Decimal(Signed32(bitrate)) + Behind(a) + Digits(time))
            else Some(base + pre + Decimal(Signed32(bitrate)) + Behind(a) + Digits(time) + Behind(b))
  {
    SplitTwice(pre, a, '{', b);
    if a != "" && b != "" {
      SplitAtBrace(a);
      SplitAtBrace(b);
    }
  }

  /** And with fewer of them there is no URI. */
  lemma {:induction false} ExpandNeedsFields(base: string, template: string, bitrate: nat, time: nat)
    ensures Expand(base, template, bitrate, time).Some? ==>
            exists pre: string, a: string, b: string ::
              template == pre + "{" + (a + "{" + b) && '{' !in pre && '{' !in a
  {
    if |StrSplit(template, '{', 3)| == 3 {
      var pre, a, b := ThreeTokens(template);
    }
  }

  lemma {:induction false} ThreeTokens(s: string) returns (pre: string, a: string, b: string)
    requires |StrSplit(s, '{', 3)| == 3
    ensures s == pre + "{" + (a + "{" + b) && '{' !in pre && '{' !in a
  {
    var rest;
    pre, rest := FirstToken(s, '{', 3);
    a, b := FirstToken(rest, '{', 2);
  }

  lemma {:induction false} FirstToken(s: string, c: char, max: nat) returns (a: string, b: string)
    requires max > 1 && |Tokens(s, c, max)| > 1
    ensures s == a + [c] + b && c !in a && Tokens(s, c, max) == [a] + Tokens(b, c, max - 1)
  {
    var i := IndexOf(s, c).value;
    a, b := s[..i], s[i + 1..];
  }

  /** A template of the form pre{x}mid{y}post. */
  ghost predicate Supported(template: string, pre: string, x: string, mid: string, y: string, post: string) {
    && template == pre + "{" + ((x + "}" + mid) + "{" + (y + "}" + post))
    && '{' !in pre && '{' !in x && '{' !in mid && '}' !in x && '}' !in y
  }

  /** Its URI is base, pre, bitrate, mid, time, post. */
  lemma {:induction false} ExpandSupported(base: string, template: string, pre: string, x: string, mid: string,
                                           y: string, post: string, bitrate: nat, time: nat)
    requires Supported(template, pre, x, mid, y, post)
    ensures Expand(base, template, bitrate, time)
         == Some(base + pre + Decimal(Signed32(bitrate)) + mid + Digits(time) + post)
  {
    SplitTwice(pre, x + "}" + mid, '{', y + "}" + post);
    SplitLast(x, '}', mid);
    SplitLast(y, '}', post);
    assert StrSplit(template, '{', 3)[1] != "" && StrSplit(template, '{', 3)[2] != "";
  }

  // ---- which templates keep fragments apart ----

  function Value(s: string): nat
    requires forall i :: 0 <= i < |s| ==> IsDigit(s[i])
  {
    if s == "" then 0 else 10 * Value(s[..|s| - 1]) + DigitValue(s[|s| - 1])
  }

  lemma {:induction false} DigitsOfValue(s: string)
    requires s != "" && (forall i :: 0 <= i < |s| ==> IsDigit(s[i])) && (|s| > 1 ==> s[0] != '0')
    ensures Digits(Value(s)) == s
    ensures s[0] != '0' ==> Value(s) > 0
  {
    var k := |s| - 1;
    assert s == s[..k] + [s[k]];
    if k == 0 {
      assert s[..k] == "";
    } else {
      DigitsOfValue(s[..k]);
      DigitsStep(Value(s[..k]), DigitValue(s[k]));
    }
  }

  lemma {:induction false} DigitsStep(v: nat, d: nat)
    requires v > 0 && d < 10
    ensures Digits(10 * v + d) == Digits(v) + [DigitChar(d)]
  {
    assert (10 * v + d) / 10 == v && (10 * v + d) % 10 == d;
  }

  lemma {:induction false} ValueOfDigits(n: nat)
    ensures Value(Digits(n)) == n
  {
    if n >= 10 {
      ValueOfDigits(n / 10);
      assert Digits(n)[..|Digits(n)| - 1] == Digits(n / 10);
    } else {
      assert Digits(n)[..0] == "";
    }
  }

  lemma {:induction false} DecimalDistinct(m: int, n: int)
    ensures Decimal(m) == Decimal(n) ==> m == n
  {
    ValueOfDigits(if m < 0 then -m else m);
    ValueOfDigits(if n < 0 then -n else n);
    if m < 0 {
      assert Decimal(m)[0] == '-' && Decimal(m)[1..] == Digits(-m);
    }
    if n < 0 {
      assert Decimal(n)[0] == '-' && Decimal(n)[1..] == Digits(-n);
    }
  }

  predicate HasNonDigit(mid: string) {
    exists q :: 0 <= q < |mid| && !IsDigit(mid[q])
  }

  /** Bitrate, the text between, and time: the part of the URI that differs between fragments. */
  function Joined(bitrate: int, mid: string, time: nat): string {
    Decimal(bitrate) + mid + Digits(time)
  }

  /** A number in text form: digits, perhaps behind a sign. */
  ghost predicate NumberText(s: string) {
    s != "" && forall i :: 1 <= i < |s| ==> IsDigit(s[i])
  }

  /** The first character that is no digit tells where a number ends. */
  lemma {:induction false} SameLength(d: string, e: string, mid: string, x: string, y: string, q: nat)
    requires NumberText(d) && NumberText(e)
    requires q < |mid| && !IsDigit(mid[q]) && forall j :: 0 <= j < q ==> IsDigit(mid[j])
    requires d + mid + x == e + mid + y
    ensures |d| >= |e|
  {
    var s := e + mid + y;
    assert s[|d| + q] == (d + mid + x)[|d| + q] == mid[q];
    assert forall j :: 1 <= j < |e| ==> s[j] == e[j];
    assert forall j :: |e| <= j < |e| + q ==> s[j] == mid[j - |e|];
  }

  lemma {:induction false} FirstNonDigit(mid: string) returns (q: nat)
    requires HasNonDigit(mid)
    ensures q < |mid| && !IsDigit(mid[q]) && forall j :: 0 <= j < q ==> IsDigit(mid[j])
  {
    q := 0;
    while IsDigit(mid[q])
      invariant q < |mid| && forall j :: 0 <= j < q ==> IsDigit(mid[j])
      decreases |mid| - q
    {
      q := q + 1;
    }
  }

  lemma {:induction false} SameTexts(d: string, e: string, mid: string, x: string, y: string, post: string)
    requires NumberText(d) && NumberText(e) && HasNonDigit(mid)
    requires d + mid + x + post == e + mid + y + post
    ensures d == e && x == y
  {
    var q := FirstNonDigit(mid);
    assert d + mid + x + post == d + mid + (x + post) && e + mid + y + post == e + mid + (y + post);
    SameLength(d, e, mid, x + post, y + post, q);
    SameLength(e, d, mid, y + post, x + post, q);
    var l, r := d + mid + x + post, e + mid + y + post;
    var k := |d|;
    assert l[..k] == d && r[..k] == e;
    assert |x| == |y|;
    assert l[k + |mid|..][..|x|] == x && r[k + |mid|..][..|y|] == y;
  }

  lemma {:induction false} JoinedDistinct(m: int, n: int, mid: string, t: nat, u: nat, post: string)
    requires HasNonDigit(mid) && Joined(m, mid, t) + post == Joined(n, mid, u) + post
    ensures m == n && t == u
  {
    SameTexts(Decimal(m), Decimal(n), mid, Digits(t), Digits(u), post);
    DecimalDistinct(m, n);
    ValueOfDigits(t);
    ValueOfDigits(u);
  }

  // ---- digits only between the two numbers ----

  /** Moved to the right by p places, the text agrees with itself, and its last p digits can start
      a number. */
  ghost predicate Repeats(mid: string, p: nat) {
    0 < p <= |mid| && mid[p..] == mid[..|mid| - p] && mid[|mid| - p] != '0'
  }

  /** A bitrate has at most ten digits, so at most nine of them can be taken for the text behind it. */
  ghost predicate Ambiguous(mid: string) {
    !HasNonDigit(mid) && (|mid| <= 8 || exists p :: 0 < p <= 9 && Repeats(mid, p))
  }

  function Pow10(k: nat): nat {
    if k == 0 then 1 else 10 * Pow10(k - 1)
  }

  lemma Powers()
    ensures Pow10(5) == 100_000
  {
    assert Pow10(1) == 10 && Pow10(2) == 100 && Pow10(3) == 1_000 && Pow10(4) == 10_000;
  }

  lemma {:induction false} PowersGrow(i: nat, j: nat)
    requires i <= j
    ensures Pow10(i) <= Pow10(j)
  {
    if i < j {
      PowersGrow(i, j - 1);
    }
  }

  /** A number below ten to the k has at most k digits. */
  lemma {:induction false} DigitsLength(n: nat, k: nat)
    requires 0 < k && n < Pow10(k)
    ensures |Digits(n)| <= k
  {
    if n >= 10 {
      assert Pow10(1) == 10;
      DigitsLength(n / 10, k - 1);
    }
  }

  ghost predicate AllDigits(s: string) {
    forall i :: 0 <= i < |s| ==> IsDigit(s[i])
  }

  /** Text of k digits is a number below ten to the k; with a digit 1 in front of it, one below
      twice that. */
  lemma {:induction false} ValueBound(s: string)
    requires AllDigits(s)
    ensures Value(s) < Pow10(|s|)
  {
    if s != "" {
      ValueBound(s[..|s| - 1]);
    }
  }

  lemma {:induction false} ValueOfOne(s: string)
    requires AllDigits(s)
    ensures AllDigits("1" + s) && Value("1" + s) == Pow10(|s|) + Value(s)
  {
    var t := "1" + s;
    if s == "" {
      assert t[..0] == "";
    } else {
      ValueOfOne(s[..|s| - 1]);
      assert t[..|t| - 1] == "1" + s[..|s| - 1];
    }
  }

  /** At most nine digits behind a 1: a bitrate that prints without a sign. */
  lemma {:induction false} OneAndNineFit(s: string)
    requires AllDigits(s) && |s| <= 9
    ensures AllDigits("1" + s) && 1 < Value("1" + s) + (if s == "" then 1 else 0)
    ensures Value("1" + s) < U32 / 2 && Digits(Value("1" + s)) == "1" + s
  {
    ValueOfOne(s);
    ValueBound(s);
    PowersGrow(|s|, 9);
    Nine();
    if s != "" {
      PowersGrow(1, |s|);
    }
    DigitsOfValue("1" + s);
  }

  lemma Nine()
    ensures Pow10(9) == 1_000_000_000 && Pow10(10) == 10_000_000_000
  {
    Powers();
    assert Pow10(6) == 1_000_000 && Pow10(7) == 10_000_000 && Pow10(8) == 100_000_000;
  }

  /** Ten digits that do not start with 0 are a time. */
  lemma {:induction false} TenFit(s: string)
    requires AllDigits(s) && 0 < |s| <= 10 && s[0] != '0'
    ensures Value(s) < U64 && Digits(Value(s)) == s
  {
    ValueBound(s);
    PowersGrow(|s|, 10);
    Nine();
    DigitsOfValue(s);
  }

  /** Two fragments with the same text. */
  ghost predicate Clash(mid: string, m: nat, t: nat, n: nat, u: nat) {
    && m < U32 && n < U32 && t < U64 && u < U64 && m != n
    && Joined(Signed32(m), mid, t) == Joined(Signed32(n), mid, u)
  }

  lemma {:induction false} ClashOf(mid: string, x: string, y: string)
    requires AllDigits(x) && 0 < |x| <= 9 && AllDigits(y) && 0 < |y| <= 10 && y[0] != '0'
    requires "1" + mid + y == "1" + x + mid + "0"
    ensures exists m: nat, t: nat, n: nat, u: nat :: Clash(mid, m, t, n, u)
  {
    OneAndNineFit(x);
    TenFit(y);
    assert Digits(0) == "0" && Digits(1) == "1";
    ClashWith(mid, 1, Value(y), Value("1" + x), 0);
  }

  lemma {:induction false} ClashWith(mid: string, m: nat, t: nat, n: nat, u: nat)
    requires m < U32 / 2 && n < U32 / 2 && t < U64 && u < U64 && m != n
    requires Digits(m) + mid + Digits(t) == Digits(n) + mid + Digits(u)
    ensures exists m: nat, t: nat, n: nat, u: nat :: Clash(mid, m, t, n, u)
  {
    JoinedPlain(mid, m, t);
    JoinedPlain(mid, n, u);
    assert Clash(mid, m, t, n, u);
  }

  lemma {:induction false} JoinedPlain(mid: string, m: nat, t: nat)
    requires m < U32 / 2
    ensures Joined(Signed32(m), mid, t) == Digits(m) + mid + Digits(t)
  {
    Plain32(m);
    assert Decimal(m) == Digits(m);
  }

  lemma Plain32(m: nat)
    requires m < U32 / 2
    ensures Signed32(m) == m
  {
  }

  /** Such a text is read in two ways: with 1 in front of it, and with 1 and some of its own digits. */
  lemma {:induction false} AmbiguousClashes(mid: string)
    requires Ambiguous(mid)
    ensures exists m: nat, t: nat, n: nat, u: nat :: Clash(mid, m, t, n, u)
  {
    if |mid| <= 8 {
      var x, y := mid + "1", "1" + mid + "0";
      assert "1" + mid + y == "1" + x + mid + "0";
      ClashOf(mid, x, y);
    } else {
      var p :| 0 < p <= 9 && Repeats(mid, p);
      RepeatsMoved(mid, p, "1", "0");
      ClashOf(mid, mid[..p], mid[|mid| - p..] + "0");
    }
  }

  lemma {:induction false} RepeatsMoved(mid: string, p: nat, d: string, u: string)
    requires Repeats(mid, p)
    ensures d + mid + (mid[|mid| - p..] + u) == d + mid[..p] + mid + u
  {
    var x, z := mid[..p], mid[|mid| - p..];
    assert mid == mid[..|mid| - p] + z == x + mid[p..];
    assert mid + z == x + mid;
    assert d + mid + (z + u) == d + (mid + z) + u && d + x + mid + u == d + (x + mid) + u;
  }

  /** The other way round: where the longer number takes x from the text, the text repeats itself. */
  lemma {:induction false} ShiftRepeats(mid: string, x: string, t: string, u: string)
    requires 0 < |x| <= |mid| && mid + t == x + mid + u && t != "" && t[0] != '0'
    ensures Repeats(mid, |x|)
  {
    var p, k := |x|, |mid|;
    var s := mid + t;
    assert s == x + (mid + u);
    assert s[p..k] == mid[p..];
    assert s[p..k] == (mid + u)[..k - p] == mid[..k - p];
    assert s[k] == t[0] && s[k] == (mid + u)[k - p] == mid[k - p];
  }

  lemma {:induction false} LongerTakes(d: string, e: string, mid: string, t: string, u: string)
    requires |d| < |e| && d + mid + t == e + mid + u
    ensures var x := e[|d|..]; e == d + x && mid + t == x + mid + u
  {
    var x := e[|d|..];
    var l, r := d + mid + t, e + mid + u;
    assert l[..|d|] == d && r[..|d|] == e[..|d|];
    assert l[|d|..] == mid + t && r[|d|..] == x + mid + u;
  }

  /** Two digit texts in front of the same digits. */
  lemma {:induction false} SameReading(d: string, e: string, mid: string, t: string, u: string)
    requires |d| < |e| <= |d| + 9 && AllDigits(mid) && d + mid + t == e + mid + u
    requires u != "" && t != "" && (|t| > 1 ==> t[0] != '0')
    ensures Ambiguous(mid)
  {
    if |mid| > 8 {
      LongerTakes(d, e, mid, t, u);
      assert |t| == |e| - |d| + |u| > 1;
      ShiftRepeats(mid, e[|d|..], t, u);
    }
  }

  /** What a bitrate prints as: a sign and at most ten digits. */
  lemma {:induction false} DecimalLength(b: nat)
    requires b < U32
    ensures var s := Decimal(Signed32(b));
            if Signed32(b) < 0 then 2 <= |s| <= 11 && s[0] == '-' else 1 <= |s| <= 10 && IsDigit(s[0])
  {
    var m := Signed32(b);
    Nine();
    DigitsLength(if m < 0 then -m else m, 10);
  }

  lemma {:induction false} SameFirst(d: string, e: string, x: string, y: string)
    requires d != "" && e != "" && d + x == e + y
    ensures d[0] == e[0]
  {
    assert (d + x)[0] == d[0] && (e + y)[0] == e[0];
  }

  /** Two readings of one text are the same, unless the text between the numbers is ambiguous. */
  lemma {:induction false} SameReadings(d: string, e: string, mid: string, t: string, u: string)
    requires AllDigits(mid) && d + mid + t == e + mid + u && |d| <= |e| + 9 && |e| <= |d| + 9
    requires t != "" && (|t| > 1 ==> t[0] != '0') && u != "" && (|u| > 1 ==> u[0] != '0')
    ensures (d == e && t == u) || Ambiguous(mid)
  {
    if |d| < |e| {
      SameReading(d, e, mid, t, u);
    } else if |e| < |d| {
      SameReading(e, d, mid, u, t);
    } else {
      SameParts(d, e, mid, t, u);
    }
  }

  lemma {:induction false} SimilarLength(m: nat, n: nat, x: string, y: string)
    requires m < U32 && n < U32 && Decimal(Signed32(m)) + x == Decimal(Signed32(n)) + y
    ensures |Decimal(Signed32(m))| <= |Decimal(Signed32(n))| + 9 && |Decimal(Signed32(n))| <= |Decimal(Signed32(m))| + 9
  {
    DecimalLength(m);
    DecimalLength(n);
    SameFirst(Decimal(Signed32(m)), Decimal(Signed32(n)), x, y);
  }

  lemma {:induction false} SameNumbers(mid: string, m: nat, t: nat, n: nat, u: nat)
    requires m < U32 && n < U32 && !HasNonDigit(mid) && !Ambiguous(mid)
    requires Joined(Signed32(m), mid, t) == Joined(Signed32(n), mid, u)
    ensures m == n && t == u
  {
    SimilarJoined(mid, m, t, n, u);
    SameReadings(Decimal(Signed32(m)), Decimal(Signed32(n)), mid, Digits(t), Digits(u));
    DecimalDistinct(Signed32(m), Signed32(n));
    ValueOfDigits(t);
    ValueOfDigits(u);
  }

  lemma {:induction false} SimilarJoined(mid: string, m: nat, t: nat, n: nat, u: nat)
    requires m < U32 && n < U32 && Joined(Signed32(m), mid, t) == Joined(Signed32(n), mid, u)
    ensures |Decimal(Signed32(m))| <= |Decimal(Signed32(n))| + 9
    ensures |Decimal(Signed32(n))| <= |Decimal(Signed32(m))| + 9
  {
    var d, e, x, y := Decimal(Signed32(m)), Decimal(Signed32(n)), Digits(t), Digits(u);
    assert d + mid + x == d + (mid + x) && e + mid + y == e + (mid + y);
    SimilarLength(m, n, mid + x, mid + y);
  }

  lemma {:induction false} SameParts(d: string, e: string, mid: string, x: string, y: string)
    requires |d| == |e| && d + mid + x == e + mid + y
    ensures d == e && x == y
  {
    var l, r := d + mid + x, e + mid + y;
    assert l[..|d|] == d && r[..|d|] == e;
    assert l[|d| + |mid|..] == x && r[|d| + |mid|..] == y;
  }

  /** What stands between bitrate and time keeps them apart: all the bitrates and times there are
      give different texts. */
  ghost predicate KeepsApart(mid: string) {
    forall m: nat, t: nat, n: nat, u: nat | m < U32 && n < U32 && t < U64 && u < U64 ::
      Joined(Signed32(m), mid, t) == Joined(Signed32(n), mid, u) ==> m == n && t == u
  }

  lemma {:induction false} NotAmbiguousTellsApart(mid: string, m: nat, t: nat, n: nat, u: nat)
    requires !Ambiguous(mid) && m < U32 && n < U32 && Joined(Signed32(m), mid, t) == Joined(Signed32(n), mid, u)
    ensures m == n && t == u
  {
    if HasNonDigit(mid) {
      JoinedDistinct(Signed32(m), Signed32(n), mid, t, u, "");
    } else {
      SameNumbers(mid, m, t, n, u);
    }
  }

  lemma {:induction false} NotAmbiguousKeepsApart(mid: string)
    requires !Ambiguous(mid)
    ensures KeepsApart(mid)
  {
    forall m: nat, t: nat, n: nat, u: nat | m < U32 && n < U32 && t < U64 && u < U64
      && Joined(Signed32(m), mid, t) == Joined(Signed32(n), mid, u)
      ensures m == n && t == u
    {
      NotAmbiguousTellsApart(mid, m, t, n, u);
    }
  }

  /** It does if and only if it has a character other than a digit, or is at least nine digits long
      and does not repeat itself within nine places. */
  lemma {:induction false} KeepsApartIff(mid: string)
    ensures KeepsApart(mid) <==> !Ambiguous(mid)
  {
    if Ambiguous(mid) {
      AmbiguousClashes(mid);
      var m: nat, t: nat, n: nat, u: nat :| Clash(mid, m, t, n, u);
    } else {
      NotAmbiguousKeepsApart(mid);
    }
  }

  lemma {:induction false} SameHead(head: string, a: string, b: string)
    requires head + a == head + b
    ensures a == b
  {
    assert (head + a)[|head|..] == a && (head + b)[|head|..] == b;
  }

  lemma {:induction false} Regroup(base: string, pre: string, d: string, mid: string, e: string, post: string)
    ensures base + pre + d + mid + e + post == (base + pre) + (d + mid + e + post)
  {
  }

  /** Two URIs of one template are the same exactly if the texts of their numbers are. */
  lemma {:induction false} SameUriIff(base: string, template: string, pre: string, x: string, mid: string, y: string,
                                      post: string, b1: nat, t1: nat, b2: nat, t2: nat)
    requires Supported(template, pre, x, mid, y, post)
    ensures Expand(base, template, b1, t1) == Expand(base, template, b2, t2)
       <==> Joined(Signed32(b1), mid, t1) == Joined(Signed32(b2), mid, t2)
  {
    ExpandSupported(base, template, pre, x, mid, y, post, b1, t1);
    ExpandSupported(base, template, pre, x, mid, y, post, b2, t2);
    var m, n := Signed32(b1), Signed32(b2);
    Regroup(base, pre, Decimal(m), mid, Digits(t1), post);
    Regroup(base, pre, Decimal(n), mid, Digits(t2), post);
    if Expand(base, template, b1, t1) == Expand(base, template, b2, t2) {
      SameHead(base + pre, Joined(m, mid, t1) + post, Joined(n, mid, t2) + post);
      SameFront(Joined(m, mid, t1), Joined(n, mid, t2), post);
    }
  }

  /** Unless the text between its fields is ambiguous, distinct fragments of a stream have distinct
      URIs, also for bitrates that print as negative numbers. */
  lemma {:induction false} UrisDistinct(base: string, template: string, pre: string, x: string, mid: string, y: string,
                                        post: string, b1: nat, t1: nat, b2: nat, t2: nat)
    requires Supported(template, pre, x, mid, y, post)
    requires !Ambiguous(mid) && b1 < U32 && b2 < U32
    ensures Expand(base, template, b1, t1) == Expand(base, template, b2, t2) <==> b1 == b2 && t1 == t2
  {
    SameUriIff(base, template, pre, x, mid, y, post, b1, t1, b2, t2);
    if Joined(Signed32(b1), mid, t1) == Joined(Signed32(b2), mid, t2) {
      NotAmbiguousTellsApart(mid, b1, t1, b2, t2);
    }
  }

  /** No two fragments of a template share a URI, over all the bitrates and times there are. */
  ghost predicate UrisApart(base: string, template: string) {
    forall b1: nat, t1: nat, b2: nat, t2: nat | b1 < U32 && b2 < U32 && t1 < U64 && t2 < U64 ::
      Expand(base, template, b1, t1) == Expand(base, template, b2, t2) ==> b1 == b2 && t1 == t2
  }

  /** That is so if and only if the text between the fields is not ambiguous: it has a character other
      than a digit, or is at least nine digits long and does not repeat itself within nine places. */
  lemma {:induction false} UrisApartIff(base: string, template: string, pre: string, x: string, mid: string, y: string,
                                        post: string)
    requires Supported(template, pre, x, mid, y, post)
    ensures UrisApart(base, template) <==> !Ambiguous(mid)
  {
    if Ambiguous(mid) {
      AmbiguousClashes(mid);
      var m: nat, t: nat, n: nat, u: nat :| Clash(mid, m, t, n, u);
      SameUriIff(base, template, pre, x, mid, y, post, m, t, n, u);
    } else {
      forall b1: nat, t1: nat, b2: nat, t2: nat | b1 < U32 && b2 < U32 && t1 < U64 && t2 < U64
        && Expand(base, template, b1, t1) == Expand(base, template, b2, t2)
        ensures b1 == b2 && t1 == t2
      {
        UrisDistinct(base, template, pre, x, mid, y, post, b1, t1, b2, t2);
      }
    }
  }
}
