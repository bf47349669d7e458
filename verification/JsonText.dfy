/** JSON values as text (RFC 8259, without insignificant whitespace): how the writer of src/util.cu
    spells them, and a reader that recovers the value from the text. */
module JsonText {
  import opened Arith

  /** Lists grow at their end, as the writer emits them. */
  datatype Value = Null | Str(s: string) | Num(text: string) | List(items: Items) | Object(members: Members)

  datatype Items = NoItems | Item(init: Items, last: Value)

  datatype Members = NoMembers | Member(init: Members, key: string, value: Value)

  datatype Option<+T> = None | Some(value: T)

  // ---- strings

  /** What sanitizeJson copies: printable ASCII, tab and newline. */
  predicate Copyable(c: char)
  {
    ' ' <= c <= '~' || c == '\t' || c == '\n'
  }

  function EscapeChar(c: char): (e: string)
    ensures 1 <= |e| <= 2
  {
    if c == '"' || c == '\\' || c == '/' then ['\\', c]
    else if c == '\n' then "\\n"
    else if c == '\t' then "\\t"
    else [c]
  }

  function Escape(s: string): string
  {
    if s == [] then [] else Escape(s[..|s| - 1]) + EscapeChar(s[|s| - 1])
  }

  ghost predicate AllCopyable(s: string)
  {
    forall i :: 0 <= i < |s| ==> Copyable(s[i])
  }

  lemma {:induction false} EscapeHead(s: string)
    requires s != []
    ensures Escape(s) == EscapeChar(s[0]) + Escape(s[1..])
  {
    hide Escape, EscapeChar;
    var n := |s| - 1;
    EscapeLast(s);
    if n == 0 {
      EmptyEscape();
      assert s[..0] == [] && s[1..] == [];
    } else {
      EscapeHead(s[..n]);
      var t := s[1..];
      EscapeLast(t);
      assert s[..n][1..] == t[..n - 1] && t[n - 1] == s[n] && |t| == n;
    }
  }

  lemma {:induction false} EscapeLast(s: string)
    requires s != []
    ensures Escape(s) == Escape(s[..|s| - 1]) + EscapeChar(s[|s| - 1])
  {
  }

  lemma {:induction false} EmptyEscape()
    ensures Escape([]) == []
  {
  }

  lemma {:induction false} EscapeAdd(s: string, c: char)
    ensures Escape(s + [c]) == Escape(s) + EscapeChar(c)
  {
    assert (s + [c])[..|s|] == s;
  }

  lemma {:induction false} EscapeLonger(s: string, i: nat, k: nat)
    requires i <= k <= |s|
    ensures |Escape(s[..i])| <= |Escape(s[..k])|
    ensures i < k ==> |Escape(s[..i])| < |Escape(s[..k])|
  {
    if i < k {
      EscapeLonger(s, i, k - 1);
      assert s[..k] == s[..k - 1] + [s[k - 1]];
      EscapeAdd(s[..k - 1], s[k - 1]);
    }
  }

  function Quote(s: string): string
  {
    "\"" + Escape(s) + "\""
  }

  // ---- numbers: [ minus ] int [ frac ]

  predicate Digit(c: char)
  {
    '0' <= c <= '9'
  }

  predicate NumberChar(c: char)
  {
    Digit(c) || c == '-' || c == '.'
  }

  predicate AllDigits(s: string)
  {
    |s| > 0 && forall i :: 0 <= i < |s| ==> Digit(s[i])
  }

  /** int: a digit, or digits without a leading zero. */
  predicate IsWhole(s: string)
  {
    AllDigits(s) && (s[0] == '0' ==> |s| == 1)
  }

  predicate IsUnsigned(s: string)
  {
    IsWhole(s) || exists k: nat :: k < |s| && IsWhole(s[..k]) && s[k] == '.' && AllDigits(s[k + 1..])
  }

  predicate IsNumber(s: string)
  {
    IsUnsigned(s) || (|s| > 0 && s[0] == '-' && IsUnsigned(s[1..]))
  }

  function DigitChar(d: nat): char
    requires d < 10
  {
    '0' + d as char
  }

  /** Decimal digits, `%d` and `%zu`. */
  function Decimal(n: nat): (s: string)
    ensures IsWhole(s) && (n > 0 ==> s[0] != '0')
  {
    if n < 10 then [DigitChar(n)] else Decimal(n / 10) + [DigitChar(n % 10)]
  }

  function IntText(n: int): (s: string)
    ensures IsNumber(s)
  {
    if n >= 0 then Decimal(n) else
    var s := "-" + Decimal(0 - n);
    assert s[1..] == Decimal(0 - n);
    s
  }

  /** Exactly k digits. */
  function Padded(n: nat, k: nat): (s: string)
    ensures |s| == k && forall i :: 0 <= i < k ==> Digit(s[i])
  {
    if k == 0 then [] else Padded(n / 10, k - 1) + [DigitChar(n % 10)]
  }

  /** `%lf` of a finite value: whole part and six digits. */
  function FixedText(negative: bool, whole: nat, micro: nat): (s: string)
    ensures IsNumber(s)
  {
    var u := Decimal(whole) + "." + Padded(micro, 6);
    assert IsUnsigned(u) by {
      var k := |Decimal(whole)|;
      assert u[..k] == Decimal(whole) && u[k] == '.' && u[k + 1..] == Padded(micro, 6);
    }
    if negative then
      var s := "-" + u;
      assert s[1..] == u;
      s
    else u
  }

  // What the digits say.

  function DigitValue(c: char): nat
  {
    if Digit(c) then c as int - '0' as int else 0
  }

  function NumberOf(s: string): nat
  {
    if s == [] then 0 else 10 * NumberOf(s[..|s| - 1]) + DigitValue(s[|s| - 1])
  }

  function Pow10(k: nat): (p: nat)
    ensures p >= 1
  {
    if k == 0 then 1 else 10 * Pow10(k - 1)
  }

  lemma {:induction false} NumberSnoc(s: string, d: nat)
    requires d < 10
    ensures NumberOf(s + [DigitChar(d)]) == 10 * NumberOf(s) + d
  {
    assert (s + [DigitChar(d)])[..|s|] == s;
    assert DigitValue(DigitChar(d)) == d;
  }

  /** Read back, the digits are the number. */
  lemma {:induction false} DecimalReads(n: nat)
    ensures NumberOf(Decimal(n)) == n
  {
    if n < 10 {
      NumberSnoc([], n);
      assert [] + [DigitChar(n)] == [DigitChar(n)];
    } else {
      DecimalReads(n / 10);
      NumberSnoc(Decimal(n / 10), n % 10);
    }
  }

  /** Exactly k digits are the number modulo 10^k. */
  lemma {:induction false} PaddedReads(n: nat, k: nat)
    ensures NumberOf(Padded(n, k)) == n % Pow10(k)
  {
    if k > 0 {
      PaddedReads(n / 10, k - 1);
      NumberSnoc(Padded(n / 10, k - 1), n % 10);
      DigitsModulo(n, Pow10(k - 1));
    }
  }

  lemma {:induction false} DigitsModulo(n: nat, p: nat)
    requires p >= 1
    ensures n % (10 * p) == 10 * (n / 10 % p) + n % 10
  {
    var q := n / 10;
    var a, r := q / p, q % p;
    assert q == a * p + r && n == 10 * q + n % 10;
    QuotientBounds(q, p);
    assert n == a * (10 * p) + (10 * r + n % 10) by { assert a * (10 * p) == 10 * (a * p); }
    DivModOf(a, 10 * r + n % 10, 10 * p);
  }

  /** The text of an integer is its sign and its digits. */
  lemma {:induction false} IntReads(n: int)
    ensures |IntText(n)| > 0
    ensures n >= 0 ==> Digit(IntText(n)[0]) && NumberOf(IntText(n)) == n
    ensures n < 0 ==> IntText(n)[0] == '-' && NumberOf(IntText(n)[1..]) == -n
  {
    if n >= 0 {
      DecimalReads(n);
    } else {
      DecimalReads(0 - n);
      assert IntText(n)[1..] == Decimal(0 - n);
    }
  }

  /** The text of a double is its sign, its whole part, a point and six digits. */
  lemma {:induction false} FixedReads(negative: bool, whole: nat, micro: nat)
    requires micro < 1_000_000
    ensures var s := FixedText(negative, whole, micro);
      && |s| >= 8 && (negative <==> s[0] == '-') && s[|s| - 7] == '.'
      && NumberOf(s[if negative then 1 else 0..|s| - 7]) == whole && NumberOf(s[|s| - 6..]) == micro
  {
    hide Decimal, Padded, NumberOf, IsNumber, IsUnsigned, Pow10;
    DecimalReads(whole);
    PaddedReads(micro, 6);
    Million();
    SmallMod(micro, 1_000_000);
    FixedParts(if negative then "-" else "", Decimal(whole), Padded(micro, 6));
    assert "" + (Decimal(whole) + "." + Padded(micro, 6)) == Decimal(whole) + "." + Padded(micro, 6);
  }

  lemma {:induction false} FixedParts(sign: string, whole: string, six: string)
    requires |six| == 6 && |sign| <= 1
    ensures var s := sign + (whole + "." + six);
      |s| == |sign| + |whole| + 7 && s[|sign|..|s| - 7] == whole && s[|s| - 7] == '.' && s[|s| - 6..] == six
  {
  }

  lemma {:induction false} Million()
    ensures Pow10(6) == 1_000_000
  {
    assert Pow10(3) == 10 * Pow10(2) == 100 * Pow10(1) == 1000;
    assert Pow10(6) == 10 * Pow10(5) == 100 * Pow10(4) == 1000 * Pow10(3);
  }

  lemma {:induction false} NumberChars(s: string)
    requires IsNumber(s)
    ensures |s| > 0 && forall i :: 0 <= i < |s| ==> NumberChar(s[i])
  {
    if IsUnsigned(s) {
      UnsignedChars(s);
    } else {
      UnsignedChars(s[1..]);
      assert forall i :: 1 <= i < |s| ==> s[i] == s[1..][i - 1];
    }
  }

  lemma {:induction false} UnsignedChars(s: string)
    requires IsUnsigned(s)
    ensures |s| > 0 && forall i :: 0 <= i < |s| ==> NumberChar(s[i])
  {
    if !IsWhole(s) {
      var k: nat :| k < |s| && IsWhole(s[..k]) && s[k] == '.' && AllDigits(s[k + 1..]);
      forall i | 0 <= i < |s|
        ensures NumberChar(s[i])
      {
        if i < k {
          assert s[i] == s[..k][i];
        } else if i > k {
          assert s[i] == s[k + 1..][i - k - 1];
        }
      }
    }
  }

  // ---- the text of a value

  function Render(v: Value): string
  {
    match v
    case Null => "null"
    case Str(s) => Quote(s)
    case Num(t) => t
    case List(items) => "[" + RenderItems(items) + "]"
    case Object(members) => "{" + RenderMembers(members) + "}"
  }

  function RenderItems(xs: Items): string
  {
    match xs
    case NoItems => ""
    case Item(init, last) => RenderItems(init) + (if init.NoItems? then "" else ",") + Render(last)
  }

  function RenderMembers(ms: Members): string
  {
    match ms
    case NoMembers => ""
    case Member(init, key, value) =>
      RenderMembers(init) + (if init.NoMembers? then "" else ",") + Quote(key) + ":" + Render(value)
  }

  /** Strings hold what the writer can spell, and numbers are numbers. */
  ghost predicate Good(v: Value)
  {
    match v
    case Null => true
    case Str(s) => AllCopyable(s)
    case Num(t) => IsNumber(t)
    case List(items) => GoodItems(items)
    case Object(members) => GoodMembers(members)
  }

  ghost predicate GoodItems(xs: Items)
  {
    xs.Item? ==> GoodItems(xs.init) && Good(xs.last)
  }

  ghost predicate GoodMembers(ms: Members)
  {
    ms.Member? ==> GoodMembers(ms.init) && AllCopyable(ms.key) && Good(ms.value)
  }

  /** `%lf` of an infinite value. */
  predicate IsInfinityText(s: string)
  {
    s == "inf" || s == "-inf"
  }

  /** What the writer can be made to print: as Good, but a number may be infinite. */
  ghost predicate Writable(v: Value)
  {
    match v
    case Null => true
    case Str(s) => AllCopyable(s)
    case Num(t) => IsNumber(t) || IsInfinityText(t)
    case List(items) => WritableItems(items)
    case Object(members) => WritableMembers(members)
  }

  ghost predicate WritableItems(xs: Items)
  {
    xs.Item? ==> WritableItems(xs.init) && Writable(xs.last)
  }

  ghost predicate WritableMembers(ms: Members)
  {
    ms.Member? ==> WritableMembers(ms.init) && AllCopyable(ms.key) && Writable(ms.value)
  }

  // ---- the reader

  function Unescaped(c: char): Option<char>
  {
    if c == '"' || c == '\\' || c == '/' then Some(c)
    else if c == 'n' then Some('\n')
    else if c == 't' then Some('\t')
    else None
  }

  /** The rest of a string after its opening quote, and what follows it. */
  function ReadString(s: string): (r: Option<(string, string)>)
    ensures r.Some? ==> |r.value.1| < |s|
  {
    if s == [] then None
    else if s[0] == '"' then Some(("", s[1..]))
    else if s[0] == '\\' then
      if |s| < 2 || Unescaped(s[1]).None? then None else
      var r := ReadString(s[2..]);
      if r.None? then None else Some(([Unescaped(s[1]).value] + r.value.0, r.value.1))
    else if s[0] < ' ' then None
    else
      var r := ReadString(s[1..]);
      if r.None? then None else Some(([s[0]] + r.value.0, r.value.1))
  }

  function NumberLength(s: string): (k: nat)
    ensures k <= |s|
  {
    if s == [] || !NumberChar(s[0]) then 0 else 1 + NumberLength(s[1..])
  }

  function ReadValue(s: string): (r: Option<(Value, string)>)
    ensures r.Some? ==> |r.value.1| < |s|
    decreases |s|, 0
  {
    if s == [] then None
    else if s[0] == '"' then
      var r := ReadString(s[1..]);
      if r.None? then None else Some((Str(r.value.0), r.value.1))
    else if s[0] == '[' then
      if |s| >= 2 && s[1] == ']' then Some((List(NoItems), s[2..])) else
      var r := ReadItems(NoItems, s[1..]);
      if r.None? then None else Some((List(r.value.0), r.value.1))
    else if s[0] == '{' then
      if |s| >= 2 && s[1] == '}' then Some((Object(NoMembers), s[2..])) else
      var r := ReadMembers(NoMembers, s[1..]);
      if r.None? then None else Some((Object(r.value.0), r.value.1))
    else if s[0] == 'n' then
      if |s| >= 4 && s[..4] == "null" then Some((Null, s[4..])) else None
    else
      var k := NumberLength(s);
      if k > 0 && IsNumber(s[..k]) then Some((Num(s[..k]), s[k..])) else None
  }

  /** value *( "," value ) "]", after the items already read. */
  function ReadItems(done: Items, s: string): (r: Option<(Items, string)>)
    ensures r.Some? ==> |r.value.1| < |s|
    decreases |s|, 1
  {
    var v := ReadValue(s);
    if v.None? || v.value.1 == [] then None else
    var xs, rest := Item(done, v.value.0), v.value.1;
    if rest[0] == ']' then Some((xs, rest[1..]))
    else if rest[0] == ',' then ReadItems(xs, rest[1..])
    else None
  }

  /** string ":" value *( "," string ":" value ) "}" */
  function ReadMembers(done: Members, s: string): (r: Option<(Members, string)>)
    ensures r.Some? ==> |r.value.1| < |s|
    decreases |s|, 1
  {
    if s == [] || s[0] != '"' then None else
    var k := ReadString(s[1..]);
    if k.None? || k.value.1 == [] || k.value.1[0] != ':' then None else
    var v := ReadValue(k.value.1[1..]);
    if v.None? || v.value.1 == [] then None else
    var ms, rest := Member(done, k.value.0, v.value.0), v.value.1;
    if rest[0] == '}' then Some((ms, rest[1..]))
    else if rest[0] == ',' then ReadMembers(ms, rest[1..])
    else None
  }

  /** The text is one JSON value and nothing else. */
  function ReadDocument(s: string): Option<Value>
  {
    var r := ReadValue(s);
    if r.Some? && r.value.1 == [] then Some(r.value.0) else None
  }

  // ---- reading what was written

  lemma {:induction false} ReadEscaped(t: string, rest: string)
    requires AllCopyable(t)
    ensures ReadString(Escape(t) + "\"" + rest) == Some((t, rest))
  {
    hide Escape, EscapeChar, ReadString;
    if t == [] {
      EmptyEscape();
      ReadQuoteMark(rest);
      assert [] + "\"" + rest == "\"" + rest;
    } else {
      ReadEscaped(t[1..], rest);
      EscapeHead(t);
      assert Copyable(t[0]);
      var e, tail := EscapeChar(t[0]), Escape(t[1..]) + "\"" + rest;
      ReadEscapedChar(t[0], tail);
      assert Escape(t) + "\"" + rest == e + tail;
      assert [t[0]] + t[1..] == t;
    }
  }

  lemma {:induction false} ReadQuoteMark(rest: string)
    ensures ReadString("\"" + rest) == Some(("", rest))
  {
    assert ("\"" + rest)[1..] == rest;
  }

  lemma {:induction false} ReadEscapedChar(c: char, tail: string)
    requires Copyable(c)
    ensures ReadString(EscapeChar(c) + tail)
         == (var r := ReadString(tail);
             if r.None? then None else Some(([c] + r.value.0, r.value.1)))
  {
    var e := EscapeChar(c);
    assert (e + tail)[|e|..] == tail;
  }

  lemma {:induction false} ReadQuoted(t: string, rest: string)
    requires AllCopyable(t)
    ensures Quote(t) + rest != [] && (Quote(t) + rest)[0] == '"'
    ensures ReadString((Quote(t) + rest)[1..]) == Some((t, rest))
  {
    ReadEscaped(t, rest);
    assert (Quote(t) + rest)[1..] == Escape(t) + "\"" + rest;
  }

  lemma {:induction false} NumberEnds(t: string, rest: string)
    requires (forall i :: 0 <= i < |t| ==> NumberChar(t[i])) && (rest == [] || !NumberChar(rest[0]))
    ensures NumberLength(t + rest) == |t|
  {
    if t != [] {
      NumberEnds(t[1..], rest);
      assert (t + rest)[1..] == t[1..] + rest;
    } else {
      assert t + rest == rest;
    }
  }

  /** A value never begins like the end of a list. */
  lemma {:induction false} FirstChar(v: Value)
    requires Writable(v)
    ensures |Render(v)| > 0 && Render(v)[0] != ']'
  {
    if v.Num? && IsNumber(v.text) {
      NumberChars(v.text);
    }
  }

  lemma {:induction false} FirstOfItems(xs: Items)
    requires WritableItems(xs) && xs.Item?
    ensures |RenderItems(xs)| > 0 && RenderItems(xs)[0] != ']'
  {
    FirstChar(xs.last);
    if xs.init.Item? {
      FirstOfItems(xs.init);
    }
  }

  lemma {:induction false} FirstOfMembers(ms: Members)
    requires ms.Member?
    ensures |RenderMembers(ms)| > 0 && RenderMembers(ms)[0] == '"'
  {
    if ms.init.Member? {
      FirstOfMembers(ms.init);
    }
  }

  lemma {:induction false} GoodIsWritable(v: Value)
    requires Good(v)
    ensures Writable(v)
    decreases v, 0
  {
    match v
    case Null =>
    case Str(_) =>
    case Num(_) =>
    case List(items) => GoodItemsWritable(items);
    case Object(members) => GoodMembersWritable(members);
  }

  lemma {:induction false} GoodItemsWritable(xs: Items)
    requires GoodItems(xs)
    ensures WritableItems(xs)
    decreases xs, 0
  {
    if xs.Item? {
      GoodItemsWritable(xs.init);
      GoodIsWritable(xs.last);
    }
  }

  lemma {:induction false} GoodMembersWritable(ms: Members)
    requires GoodMembers(ms)
    ensures WritableMembers(ms)
    decreases ms, 0
  {
    if ms.Member? {
      GoodMembersWritable(ms.init);
      GoodIsWritable(ms.value);
    }
  }

  /** The reader recovers every value from its text, whatever follows (a number must be followed by
      something that cannot continue it). */
  lemma {:induction false} ReadRendered(v: Value, rest: string)
    requires Good(v) && (rest == [] || !NumberChar(rest[0]))
    ensures ReadValue(Render(v) + rest) == Some((v, rest))
    decreases v, 1
  {
    var s := Render(v) + rest;
    match v
    case Null =>
      assert s[..4] == "null" && s[4..] == rest;
    case Str(t) =>
      ReadQuoted(t, rest);
    case Num(t) =>
      ReadNumber(t, rest);
    case List(items) =>
      ReadList(items, rest);
    case Object(members) =>
      ReadObject(members, rest);
  }

  lemma {:induction false} ReadNumber(t: string, rest: string)
    requires IsNumber(t) && (rest == [] || !NumberChar(rest[0]))
    ensures ReadValue(t + rest) == Some((Num(t), rest))
  {
    NumberChars(t);
    NumberEnds(t, rest);
    assert (t + rest)[..|t|] == t && (t + rest)[|t|..] == rest;
    assert NumberChar((t + rest)[0]);
  }

  lemma {:induction false} ReadList(items: Items, rest: string)
    requires GoodItems(items)
    ensures ReadValue("[" + RenderItems(items) + "]" + rest) == Some((List(items), rest))
    decreases items, 2
  {
    var s := "[" + RenderItems(items) + "]" + rest;
    if items.NoItems? {
      assert s[2..] == rest;
    } else {
      GoodItemsWritable(items);
      FirstOfItems(items);
      var tail := "]" + rest;
      assert s[1..] == RenderItems(items) + tail;
      assert tail[1..] == rest;
      ItemsBefore(items.init, Render(items.last) + tail);
      LastItemText(items, tail);
      ReadRendered(items.last, tail);
      hide RenderItems, Render, ReadString;
    }
  }

  lemma {:induction false} LastItemText(xs: Items, tail: string)
    requires xs.Item?
    ensures RenderItems(xs) + tail == RenderItems(xs.init) + (if xs.init.NoItems? then "" else ",") + (Render(xs.last) + tail)
  {
    hide Render;
  }

  /** Having read the items of xs and the comma after them, the reader goes on with x. */
  lemma {:induction false} ItemsBefore(xs: Items, x: string)
    requires GoodItems(xs)
    ensures ReadItems(NoItems, RenderItems(xs) + (if xs.NoItems? then "" else ",") + x) == ReadItems(xs, x)
    decreases xs, 2
  {
    if xs.NoItems? {
      assert "" + "" + x == x;
    } else {
      var tail := "," + x;
      assert tail[1..] == x;
      ItemsBefore(xs.init, Render(xs.last) + tail);
      LastItemText(xs, tail);
      ReadRendered(xs.last, tail);
      hide RenderItems, Render, ReadString, ReadValue;
      assert RenderItems(xs) + "," + x == RenderItems(xs) + tail;
    }
  }

  lemma {:induction false} ReadObject(members: Members, rest: string)
    requires GoodMembers(members)
    ensures ReadValue("{" + RenderMembers(members) + "}" + rest) == Some((Object(members), rest))
    decreases members, 2
  {
    hide RenderMembers, MemberText, ReadMembers, ReadString, ReadValue;
    if members.NoMembers? {
      ReadEmptyObject(rest);
    } else {
      var s := "{" + RenderMembers(members) + "}" + rest;
      FirstOfMembers(members);
      var tail := "}" + rest;
      assert s[1..] == RenderMembers(members) + tail;
      assert tail[1..] == rest;
      MembersBefore(members.init, MemberText(members) + tail);
      LastMemberText(members, tail);
      ReadMember(members, tail);
      ObjectText(s, RenderMembers(members) + tail);
    }
  }

  lemma {:induction false} ReadEmptyObject(rest: string)
    ensures ReadValue("{" + RenderMembers(NoMembers) + "}" + rest) == Some((Object(NoMembers), rest))
  {
    var s := "{" + "" + "}" + rest;
    assert s[0] == '{' && s[1] == '}' && s[2..] == rest;
  }

  lemma {:induction false} ObjectText(s: string, inner: string)
    requires |s| >= 2 && s[0] == '{' && s[1] != '}' && s[1..] == inner
    ensures ReadValue(s)
         == (var r := ReadMembers(NoMembers, inner);
             if r.None? then None else Some((Object(r.value.0), r.value.1)))
  {
    hide ReadMembers, ReadItems, ReadString, IsNumber, NumberLength;
  }

  function MemberText(ms: Members): string
    requires ms.Member?
  {
    Quote(ms.key) + ":" + Render(ms.value)
  }

  lemma {:induction false} LastMemberText(ms: Members, tail: string)
    requires ms.Member?
    ensures RenderMembers(ms) + tail
         == RenderMembers(ms.init) + (if ms.init.NoMembers? then "" else ",") + (MemberText(ms) + tail)
  {
    hide Quote, Render;
    var head := RenderMembers(ms.init) + (if ms.init.NoMembers? then "" else ",");
    assert RenderMembers(ms) == head + MemberText(ms);
  }

  /** One member, up to the comma or brace that follows it. */
  lemma {:induction false} ReadMember(ms: Members, tail: string)
    requires GoodMembers(ms) && ms.Member? && tail != [] && !NumberChar(tail[0])
    ensures ReadMembers(ms.init, MemberText(ms) + tail)
         == (if tail[0] == '}' then Some((ms, tail[1..]))
             else if tail[0] == ',' then ReadMembers(ms, tail[1..])
             else None)
    decreases ms, 1
  {
    var after := ":" + (Render(ms.value) + tail);
    assert MemberText(ms) + tail == Quote(ms.key) + after;
    ReadQuoted(ms.key, after);
    assert after[1..] == Render(ms.value) + tail;
    ReadRendered(ms.value, tail);
    hide Render, Quote, ReadString, ReadValue;
  }

  lemma {:induction false} NoMembersText()
    ensures RenderMembers(NoMembers) == ""
  {
  }

  lemma {:induction false} MembersBefore(ms: Members, x: string)
    requires GoodMembers(ms)
    ensures ReadMembers(NoMembers, RenderMembers(ms) + (if ms.NoMembers? then "" else ",") + x) == ReadMembers(ms, x)
    decreases ms, 3
  {
    hide RenderMembers, MemberText, ReadMembers, ReadString, ReadValue;
    if ms.NoMembers? {
      NoMembersText();
      assert "" + "" + x == x;
    } else {
      var tail := "," + x;
      assert tail[1..] == x;
      MembersBefore(ms.init, MemberText(ms) + tail);
      LastMemberText(ms, tail);
      ReadMember(ms, tail);
      assert RenderMembers(ms) + "," + x == RenderMembers(ms) + tail;
    }
  }

  // ---- what cannot be read

  lemma {:induction false} InfinityFails(t: string, rest: string)
    requires IsInfinityText(t) && (rest == [] || !NumberChar(rest[0]))
    ensures ReadValue(t + rest) == None && !IsNumber(t)
  {
    var s := t + rest;
    assert !NumberChar('i') && !Digit('-');
    if t == "inf" {
      assert NumberLength(s) == 0;
      assert s[0] == 'i' && !Digit(t[0]);
    } else {
      assert s[1..][0] == 'i' && NumberLength(s[1..]) == 0 && NumberLength(s) == 1;
      assert s[..1] == "-";
      assert !Digit("-"[0]) && !IsUnsigned("-") && "-"[1..] == "" && !IsUnsigned("");
      assert t[1..][0] == 'i' && !Digit(t[1..][0]) && !Digit(t[0]);
      WholeDigits(t[1..]);
      WholeDigits(t);
    }
    WholeDigits(t);
  }

  /** An unsigned number begins with a digit. */
  lemma {:induction false} WholeDigits(t: string)
    ensures IsUnsigned(t) ==> |t| > 0 && Digit(t[0])
  {
    if !IsWhole(t) && IsUnsigned(t) {
      var k: nat :| k < |t| && IsWhole(t[..k]) && t[k] == '.' && AllDigits(t[k + 1..]);
      assert t[..k][0] == t[0];
    }
  }

  /** Text with an infinite value anywhere in it cannot be read. */
  lemma {:induction false} BadValueFails(v: Value, rest: string)
    requires Writable(v) && !Good(v) && (rest == [] || !NumberChar(rest[0]))
    ensures ReadValue(Render(v) + rest) == None
    decreases v, 1
  {
    match v
    case Num(t) => InfinityFails(t, rest);
    case List(items) => BadListFails(items, rest);
    case Object(members) => BadObjectFails(members, rest);
  }

  lemma {:induction false} BadListFails(items: Items, rest: string)
    requires WritableItems(items) && !GoodItems(items)
    ensures ReadValue("[" + RenderItems(items) + "]" + rest) == None
    decreases items, 3
  {
    var s := "[" + RenderItems(items) + "]" + rest;
    FirstOfItems(items);
    var tail := "]" + rest;
    assert s[1..] == RenderItems(items) + tail;
    BadItemsFail(items, tail);
    hide RenderItems, Render, ReadString, ReadItems, IsNumber;
  }

  lemma {:induction false} BadItemsFail(xs: Items, tail: string)
    requires WritableItems(xs) && !GoodItems(xs) && tail != [] && !NumberChar(tail[0])
    ensures ReadItems(NoItems, RenderItems(xs) + tail) == None
    decreases xs, 2
  {
    LastItemText(xs, tail);
    if GoodItems(xs.init) {
      ItemsBefore(xs.init, Render(xs.last) + tail);
      BadValueFails(xs.last, tail);
      hide RenderItems, Render, ReadString, ReadValue;
    } else {
      var more := "," + (Render(xs.last) + tail);
      BadItemsFail(xs.init, more);
      hide RenderItems, Render, ReadString, ReadValue, ReadItems;
      assert RenderItems(xs) + tail == RenderItems(xs.init) + more;
    }
  }

  lemma {:induction false} BadObjectFails(members: Members, rest: string)
    requires WritableMembers(members) && !GoodMembers(members)
    ensures ReadValue("{" + RenderMembers(members) + "}" + rest) == None
    decreases members, 3
  {
    var s := "{" + RenderMembers(members) + "}" + rest;
    FirstOfMembers(members);
    var tail := "}" + rest;
    assert s[1..] == RenderMembers(members) + tail;
    ObjectText(s, RenderMembers(members) + tail);
    BadMembersFail(members, tail);
    hide RenderMembers, ReadMembers, ReadString, ReadValue;
  }

  lemma {:induction false} BadMembersFail(ms: Members, tail: string)
    requires WritableMembers(ms) && !GoodMembers(ms) && tail != [] && !NumberChar(tail[0])
    ensures ReadMembers(NoMembers, RenderMembers(ms) + tail) == None
    decreases ms, 2
  {
    hide RenderMembers, MemberText, ReadMembers, ReadString, ReadValue, Good, Writable;
    LastMemberText(ms, tail);
    if GoodMembers(ms.init) {
      MembersBefore(ms.init, MemberText(ms) + tail);
      BadMemberFails(ms, tail);
    } else {
      var more := "," + (MemberText(ms) + tail);
      BadMembersFail(ms.init, more);
      assert RenderMembers(ms) + tail == RenderMembers(ms.init) + more;
    }
  }

  lemma {:induction false} BadMemberFails(ms: Members, tail: string)
    requires ms.Member? && AllCopyable(ms.key) && Writable(ms.value) && !Good(ms.value) && tail != [] && !NumberChar(tail[0])
    ensures ReadMembers(ms.init, MemberText(ms) + tail) == None
    decreases ms, 1
  {
    var after := ":" + (Render(ms.value) + tail);
    assert MemberText(ms) + tail == Quote(ms.key) + after;
    ReadQuoted(ms.key, after);
    assert after[1..] == Render(ms.value) + tail;
    BadValueFails(ms.value, tail);
    hide Render, Quote, ReadString, ReadValue;
  }

  /** Round trip: what the writer prints for a value is one well-formed JSON text, which reads back as
      that value, exactly when no number in it is infinite. */
  lemma {:induction false} RoundTrip(v: Value)
    requires Writable(v)
    ensures ReadDocument(Render(v)) == if Good(v) then Some(v) else None
  {
    if Good(v) {
      ReadRendered(v, []);
    } else {
      BadValueFails(v, []);
    }
    assert Render(v) + [] == Render(v);
  }
}
