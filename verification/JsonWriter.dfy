/** The streaming JSON writer of src/util.cu: a stack of states and an output that only grows. The
    document written so far is kept beside them as a value tree with its open containers. */
module JsonWriter {
  import opened JsonText

  // ---- sanitizeJson

  /** Character i is copied: it can be spelled and there is room when the loop comes to it. */
  predicate Fits(s: string, lim: nat, i: nat)
    requires i < |s|
  {
    Copyable(s[i]) && |Escape(s[..i])| + 1 < lim
  }

  /** How many characters of s are copied when k have been. */
  function Kept(s: string, lim: nat, k: nat): (r: nat)
    requires k <= |s|
    ensures k <= r <= |s|
    ensures forall i :: k <= i < r ==> Fits(s, lim, i)
    ensures r == |s| || !Fits(s, lim, r)
    decreases |s| - k
  {
    if k < |s| && Fits(s, lim, k) then Kept(s, lim, k + 1) else k
  }

  /** The part of s that survives. */
  function Sanitized(s: string, lim: nat): (r: string)
    ensures AllCopyable(r) && r <= s
  {
    var k := Kept(s, lim, 0);
    assert AllCopyable(s[..k]) by {
      forall i | 0 <= i < k
        ensures Copyable(s[..k][i])
      {
        assert Fits(s, lim, i);
      }
    }
    s[..k]
  }

  /** Some escaped character, with only copied ones before it, takes the last two places. */
  ghost predicate FillsBuffer(s: string, lim: nat)
  {
    exists k: nat :: k < |s| && EndsAt(s, lim, k)
  }

  ghost predicate EndsAt(s: string, lim: nat, k: nat)
    requires k < |s|
  {
    AllCopyable(s[..k + 1]) && |Escape(s[..k])| + 2 == lim && |EscapeChar(s[k])| == 2
  }

  /** Fills out, a buffer of at least lim characters, with the escaped text of the longest prefix
      that fits. The terminator goes to index end <= lim; when that is the length of the buffer, it
      is written past it: spilled. */
  method SanitizeJson(out: array<char>, lim: nat, s: string) returns (ok: bool, end: nat, spilled: bool)
    requires out.Length >= lim
    modifies out
    ensures end <= lim && out[..end] == Escape(Sanitized(s, lim))
    ensures spilled <==> end == out.Length
    ensures !spilled ==> out[end] == '\0'
    ensures lim > 0 ==> (end == lim <==> FillsBuffer(s, lim))
    ensures ok <==> Sanitized(s, lim) == s
    ensures forall i :: end < i < out.Length ==> out[i] == old(out[i])
  {
    hide Escape, EscapeChar, Sanitized, Kept, AllCopyable, FillsBuffer;
    if lim > 0 {
      TerminatorAtLimit(s, lim);
    }
    SanitizedIs(s, lim, 0);
    EmptyEscape();
    var c := 0;
    var k := 0;
    ok := true;
    while k < |s|
      invariant k <= |s| && Kept(s, lim, 0) == Kept(s, lim, k)
      invariant c <= lim && out[..c] == Escape(s[..k])
      invariant forall i :: c <= i < out.Length ==> out[i] == old(out[i])
    {
      SanitizedIs(s, lim, k);
      if c + 1 >= lim {
        spilled := Terminate(out, c);
        return false, c, spilled;
      }
      ghost var before := out[..c];
      var ch := s[k];
      CharText(s, k);
      if ch == '"' || ch == '\\' || ch == '/' || ch == '\t' || ch == '\n' {
        out[c] := '\\';
        out[c + 1] := if ch == '\n' then 'n' else if ch == '\t' then 't' else ch;
        assert out[..c + 2] == before + [out[c], out[c + 1]];
        c := c + 2;
      } else {
        if !(' ' <= ch <= '~') {
          spilled := Terminate(out, c);
          return false, c, spilled;
        }
        out[c] := ch;
        assert out[..c + 1] == before + [ch];
        c := c + 1;
      }
      k := k + 1;
    }
    SanitizedIs(s, lim, k);
    spilled := Terminate(out, c);
    return true, c, spilled;
  }

  /** `out[c] = 0`, which misses the buffer when c is its length. */
  method Terminate(out: array<char>, c: nat) returns (spilled: bool)
    requires c <= out.Length
    modifies out
    ensures spilled <==> c == out.Length
    ensures !spilled ==> out[c] == '\0'
    ensures out[..c] == old(out[..c]) && forall i :: c < i < out.Length ==> out[i] == old(out[i])
  {
    spilled := c == out.Length;
    if !spilled {
      out[c] := '\0';
    }
  }

  /** When the loop stops at character k, the first k characters are what survives. */
  lemma {:induction false} SanitizedIs(s: string, lim: nat, k: nat)
    requires k <= |s| && Kept(s, lim, 0) == Kept(s, lim, k)
    ensures Kept(s, lim, k) == if k < |s| && Copyable(s[k]) && |Escape(s[..k])| + 1 < lim then Kept(s, lim, k + 1) else k
    ensures Kept(s, lim, k) == k ==> Sanitized(s, lim) == s[..k] && (k == |s| <==> s[..k] == s)
    ensures s[..|s|] == s && s[..0] == []
  {
  }

  lemma {:induction false} CharText(s: string, k: nat)
    requires k < |s|
    ensures Escape(s[..k + 1]) == Escape(s[..k]) + EscapeChar(s[k])
    ensures s[k] == '"' || s[k] == '\\' || s[k] == '/' ==> EscapeChar(s[k]) == ['\\', s[k]]
    ensures s[k] == '\n' ==> EscapeChar(s[k]) == ['\\', 'n']
    ensures s[k] == '\t' ==> EscapeChar(s[k]) == ['\\', 't']
    ensures s[k] !in ['"', '\\', '/', '\n', '\t'] ==> EscapeChar(s[k]) == [s[k]]
  {
    hide Escape;
    EscapeAdd(s[..k], s[k]);
    assert s[..k] + [s[k]] == s[..k + 1];
  }

  /** A string is copied whole exactly when all of it can be spelled and all but its last
      character leave two places free. */
  lemma {:induction false} WholeString(s: string, lim: nat)
    ensures Sanitized(s, lim) == s <==> AllCopyable(s) && (s == [] || |Escape(s[..|s| - 1])| + 1 < lim)
  {
    var k := Kept(s, lim, 0);
    assert Sanitized(s, lim) == s <==> k == |s|;
    assert AllCopyable(Sanitized(s, lim));
    if k == |s| {
      assert s != [] ==> Fits(s, lim, k - 1);
    } else {
      assert !Fits(s, lim, k);
      EscapeLonger(s, k, |s| - 1);
    }
  }

  /** The terminator falls at index lim, one past a buffer of lim characters, exactly when an
      escaped character of s takes the last two places. */
  lemma {:induction false} TerminatorAtLimit(s: string, lim: nat)
    requires lim > 0
    ensures |Escape(Sanitized(s, lim))| <= lim
    ensures |Escape(Sanitized(s, lim))| == lim <==> FillsBuffer(s, lim)
  {
    var kept := Kept(s, lim, 0);
    assert AllCopyable(Sanitized(s, lim));
    if kept > 0 {
      var k: nat := kept - 1;
      assert Fits(s, lim, k);
      CharText(s, k);
      if |Escape(s[..kept])| == lim {
        assert EndsAt(s, lim, k);
      }
    }
    if FillsBuffer(s, lim) {
      var k: nat :| k < |s| && EndsAt(s, lim, k);
      LastKept(s, lim, k);
      CharText(s, k);
    }
  }

  /** The character that takes the last two places is copied, and nothing after it. */
  lemma {:induction false} LastKept(s: string, lim: nat, k: nat)
    requires k < |s| && EndsAt(s, lim, k)
    ensures Kept(s, lim, 0) == k + 1
  {
    var kept := Kept(s, lim, 0);
    CharText(s, k);
    forall i: nat | i <= k
      ensures Fits(s, lim, i)
    {
      EscapeLonger(s, i, k);
      assert Copyable(s[..k + 1][i]);
    }
    assert kept == |s| || !Fits(s, lim, kept);
    assert k + 1 < |s| ==> !Fits(s, lim, k + 1);
  }

  /** A name for which both callers of the source write past their buffer: 2046 plain characters
      and a quote. */
  lemma {:induction false} TerminatorCanMiss()
    ensures |Escape(Sanitized(seq(2046, i => 'a') + ['"'], LIMIT))| == LIMIT
  {
    var a: string := seq(2046, i => 'a');
    var s := a + ['"'];
    assert s[..2046] == a && s[..2047] == s;
    PlainEscape(a);
    assert AllCopyable(s[..2047]) by {
      assert forall i :: 0 <= i < 2047 ==> Copyable(s[i]);
    }
    assert EndsAt(s, LIMIT, 2046);
    TerminatorAtLimit(s, LIMIT);
  }

  // ---- the document

  /** An object being written, with the key that waits for its value; or a list. */
  datatype Frame = ObjectFrame(members: Members, key: Option<string>) | ListFrame(items: Items)

  /** The finished top-level value, or the open containers, outermost first. */
  datatype Doc = Doc(top: Option<Value>, open: seq<Frame>)

  datatype State = KEY | OBJECT_EMPTY | OBJECT_SOME | LIST_EMPTY | LIST_SOME

  ghost predicate GoodFrame(f: Frame, outer: bool)
  {
    match f
    case ObjectFrame(members, key) =>
      WritableMembers(members) && (key.Some? ==> AllCopyable(key.value)) && (outer ==> key.Some?)
    case ListFrame(items) => WritableItems(items)
  }

  ghost predicate GoodDoc(d: Doc)
  {
    && (d.top.Some? ==> Writable(d.top.value) && d.open == [])
    && forall i :: 0 <= i < |d.open| ==> GoodFrame(d.open[i], i + 1 < |d.open|)
  }

  function LastFrame(d: Doc): Frame
    requires d.open != []
  {
    d.open[|d.open| - 1]
  }

  function Front(d: Doc): Doc
    requires d.open != []
  {
    d.(open := d.open[..|d.open| - 1])
  }

  /** The innermost container replaced. */
  function WithLast(d: Doc, f: Frame): Doc
    requires d.open != []
  {
    d.(open := d.open[..|d.open| - 1] + [f])
  }

  /** A value may come next: at the top, once; in a list; after a key. */
  predicate ValueDue(d: Doc)
  {
    if d.open == [] then d.top.None? else LastFrame(d).ListFrame? || LastFrame(d).key.Some?
  }

  predicate KeyDue(d: Doc)
  {
    d.open != [] && LastFrame(d).ObjectFrame? && LastFrame(d).key.None?
  }

  function Added(f: Frame, v: Value): Frame
    requires f.ObjectFrame? ==> f.key.Some?
  {
    match f
    case ObjectFrame(members, key) => ObjectFrame(Member(members, key.value, v), None)
    case ListFrame(items) => ListFrame(Item(items, v))
  }

  function AddValue(d: Doc, v: Value): Doc
    requires ValueDue(d)
  {
    if d.open == [] then d.(top := Some(v))
    else WithLast(d, Added(LastFrame(d), v))
  }

  function AddKey(d: Doc, name: string): Doc
    requires KeyDue(d)
  {
    WithLast(d, LastFrame(d).(key := Some(name)))
  }

  function OpenFrame(d: Doc, f: Frame): Doc
  {
    d.(open := d.open + [f])
  }

  function FrameValue(f: Frame): Value
  {
    match f
    case ObjectFrame(members, _) => Object(members)
    case ListFrame(items) => List(items)
  }

  predicate CanClose(d: Doc)
  {
    && d.open != [] && (LastFrame(d).ObjectFrame? ==> LastFrame(d).key.None?)
    && ValueDue(Front(d))
  }

  /** Closes the innermost container: it becomes a value of the one around it. */
  function Close(d: Doc): Doc
    requires CanClose(d)
  {
    AddValue(Front(d), FrameValue(LastFrame(d)))
  }

  // ---- the stack and the text of a document

  function LastStates(f: Frame): seq<State>
  {
    match f
    case ObjectFrame(members, key) =>
      if key.Some? then [OBJECT_SOME, KEY] else if members.NoMembers? then [OBJECT_EMPTY] else [OBJECT_SOME]
    case ListFrame(items) => if items.NoItems? then [LIST_EMPTY] else [LIST_SOME]
  }

  function OuterStates(fs: seq<Frame>): (r: seq<State>)
    ensures |r| == |fs|
  {
    if fs == [] then [] else
    OuterStates(fs[..|fs| - 1]) + [if fs[|fs| - 1].ObjectFrame? then OBJECT_SOME else LIST_SOME]
  }

  function StatesOf(d: Doc): seq<State>
  {
    if d.open == [] then [] else OuterStates(d.open[..|d.open| - 1]) + LastStates(LastFrame(d))
  }

  function Separator(f: Frame): string
  {
    if f.ListFrame? && f.items.Item? then "," else ""
  }

  function FrameText(f: Frame): string
  {
    match f
    case ObjectFrame(members, key) =>
      "{" + RenderMembers(members) + KeyText(members, key)
    case ListFrame(items) => "[" + RenderItems(items)
  }

  function KeyText(members: Members, key: Option<string>): string
  {
    if key.None? then "" else (if members.NoMembers? then "" else ",") + Quote(key.value) + ":"
  }

  function OuterText(fs: seq<Frame>): string
  {
    if fs == [] then "" else
    OuterText(fs[..|fs| - 1]) + FrameText(fs[|fs| - 1]) + Separator(fs[|fs| - 1])
  }

  function TextOf(d: Doc): string
  {
    if d.open != [] then OuterText(d.open[..|d.open| - 1]) + FrameText(LastFrame(d))
    else if d.top.Some? then Render(d.top.value)
    else ""
  }

  /** The comma that goes before a value, if any. */
  function ValueSeparator(d: Doc): string
  {
    if d.open == [] then "" else Separator(LastFrame(d))
  }

  /** The stack once a value has been announced. */
  function AnnouncedStates(d: Doc): seq<State>
  {
    OuterStates(d.open)
  }

  lemma {:induction false} OuterOfOpen(d: Doc)
    requires d.top.None?
    ensures OuterText(d.open) == TextOf(d) + ValueSeparator(d)
  {
  }

  lemma {:induction false} AddedText(f: Frame, v: Value)
    requires f.ObjectFrame? ==> f.key.Some?
    ensures FrameText(Added(f, v)) == FrameText(f) + Separator(f) + Render(v)
  {
    match f
    case ObjectFrame(members, key) =>
      hide Quote, Render;
      var sep, q, r := if members.NoMembers? then "" else ",", Quote(key.value), Render(v);
      assert RenderMembers(Member(members, key.value, v)) == RenderMembers(members) + sep + q + ":" + r;
      hide RenderMembers;
      RegroupMember(RenderMembers(members), sep, q, r);
    case ListFrame(items) =>
      hide Quote, Render;
  }

  lemma {:induction false} RegroupMember(a: string, b: string, c: string, d: string)
    ensures "{" + (a + b + c + ":" + d) + "" == "{" + a + (b + c + ":") + "" + d
  {
  }

  lemma {:induction false} WithLastParts(d: Doc, f: Frame)
    requires GoodDoc(d) && d.open != []
    ensures TextOf(d) == OuterText(d.open[..|d.open| - 1]) + FrameText(LastFrame(d))
    ensures GoodFrame(LastFrame(d), false) && d.top.None?
    ensures GoodFrame(f, false) ==> GoodDoc(WithLast(d, f))
    ensures TextOf(WithLast(d, f)) == OuterText(d.open[..|d.open| - 1]) + FrameText(f)
    ensures StatesOf(WithLast(d, f)) == OuterStates(d.open[..|d.open| - 1]) + LastStates(f)
  {
    var fs := d.open[..|d.open| - 1];
    assert WithLast(d, f).open[..|fs|] == fs;
    assert GoodFrame(d.open[|fs|], false);
    hide FrameText, LastStates, Writable, OuterText, OuterStates;
    forall i | 0 <= i < |fs|
      ensures GoodFrame(fs[i], true)
    {
      assert GoodFrame(d.open[i], i + 1 < |d.open|);
    }
  }

  lemma {:induction false} ValueText(d: Doc, v: Value)
    requires GoodDoc(d) && ValueDue(d) && Writable(v)
    ensures GoodDoc(AddValue(d, v))
    ensures TextOf(AddValue(d, v)) == TextOf(d) + ValueSeparator(d) + Render(v)
    ensures StatesOf(AddValue(d, v)) == AnnouncedStates(d)
  {
    hide FrameText, Separator, Render, TextOf, StatesOf, AnnouncedStates, OuterText, OuterStates, LastStates, Writable,
      GoodDoc, GoodFrame, Added;
    if d.open == [] {
      TopText(d, v);
    } else {
      var f := LastFrame(d);
      WithLastParts(d, Added(f, v));
      AddedText(f, v);
      AddedParts(f, v);
      OuterStatesLast(d);
      ShiftAll(OuterText(d.open[..|d.open| - 1]), FrameText(f), Separator(f), Render(v));
    }
  }

  lemma {:induction false} TopText(d: Doc, v: Value)
    requires GoodDoc(d) && ValueDue(d) && Writable(v) && d.open == []
    ensures GoodDoc(AddValue(d, v)) && StatesOf(AddValue(d, v)) == AnnouncedStates(d)
    ensures TextOf(AddValue(d, v)) == TextOf(d) + ValueSeparator(d) + Render(v)
  {
    hide Render, Writable, OuterText, FrameText, GoodFrame;
    assert TextOf(d) == ValueSeparator(d) == "";
    assert "" + "" + Render(v) == Render(v);
  }

  lemma {:induction false} AddedParts(f: Frame, v: Value)
    requires GoodFrame(f, false) && Writable(v) && (f.ObjectFrame? ==> f.key.Some?)
    ensures GoodFrame(Added(f, v), false)
    ensures LastStates(Added(f, v)) == [if f.ObjectFrame? then OBJECT_SOME else LIST_SOME]
  {
  }

  lemma {:induction false} OuterStatesLast(d: Doc)
    requires d.open != []
    ensures AnnouncedStates(d) ==
            OuterStates(d.open[..|d.open| - 1]) + [if LastFrame(d).ObjectFrame? then OBJECT_SOME else LIST_SOME]
  {
  }

  lemma {:induction false} Shift(a: string, b: string, c: string)
    ensures a + (b + c) == a + b + c
  {
  }

  lemma {:induction false} ShiftAll(a: string, b: string, c: string, e: string)
    ensures a + (b + c + e) == a + b + c + e
  {
  }

  lemma {:induction false} OpenText(d: Doc, f: Frame)
    requires GoodDoc(d) && ValueDue(d) && (f == ObjectFrame(NoMembers, None) || f == ListFrame(NoItems))
    ensures GoodDoc(OpenFrame(d, f)) && OpenFrame(d, f).open != []
    ensures TextOf(OpenFrame(d, f)) == TextOf(d) + ValueSeparator(d) + (if f.ListFrame? then "[" else "{")
    ensures StatesOf(OpenFrame(d, f)) == AnnouncedStates(d) + [if f.ListFrame? then LIST_EMPTY else OBJECT_EMPTY]
  {
    assert OpenFrame(d, f).open[..|d.open|] == d.open;
    assert FrameText(f) == if f.ListFrame? then "[" else "{";
    assert LastStates(f) == [if f.ListFrame? then LIST_EMPTY else OBJECT_EMPTY];
    OpenGood(d, f);
    OuterOfOpen(d);
    hide FrameText, OuterText, OuterStates, LastStates, GoodDoc;
  }

  lemma {:induction false} OpenGood(d: Doc, f: Frame)
    requires GoodDoc(d) && ValueDue(d) && (f == ObjectFrame(NoMembers, None) || f == ListFrame(NoItems))
    ensures GoodDoc(OpenFrame(d, f)) && d.top.None?
  {
    if d.open != [] {
      assert GoodFrame(LastFrame(d), false);
    }
    hide Writable;
    var fs := OpenFrame(d, f).open;
    forall i | 0 <= i < |fs|
      ensures GoodFrame(fs[i], i + 1 < |fs|)
    {
      if i < |d.open| {
        assert GoodFrame(d.open[i], i + 1 < |d.open|);
      }
    }
  }

  lemma {:induction false} OuterKey(d: Doc)
    requires GoodDoc(d) && d.open != []
    ensures ValueDue(Front(d)) && GoodDoc(Front(d))
  {
    var fs := d.open[..|d.open| - 1];
    forall i | 0 <= i < |fs|
      ensures GoodFrame(fs[i], true)
    {
      assert GoodFrame(d.open[i], i + 1 < |d.open|);
    }
    forall i | 0 <= i < |fs|
      ensures GoodFrame(fs[i], i + 1 < |fs|)
    {
      assert GoodFrame(fs[i], true);
    }
  }

  lemma {:induction false} CloseText(d: Doc)
    requires GoodDoc(d) && d.open != [] && (LastFrame(d).ObjectFrame? ==> LastFrame(d).key.None?)
    ensures CanClose(d) && GoodDoc(Close(d)) && GoodDoc(Front(d))
    ensures TextOf(Close(d)) == TextOf(d) + (if LastFrame(d).ListFrame? then "]" else "}")
    ensures |StatesOf(d)| > 0 && StatesOf(Close(d)) == StatesOf(d)[..|StatesOf(d)| - 1]
  {
    hide Writable, GoodFrame, GoodDoc, Render, FrameText, OuterText, TextOf, StatesOf, AnnouncedStates, OuterStates,
      LastStates, FrameValue, ValueSeparator, AddValue;
    var f := LastFrame(d);
    OuterKey(d);
    WithLastParts(d, f);
    ClosedFrame(f);
    OuterOfOpen(Front(d));
    OpenStates(d);
    ValueText(Front(d), FrameValue(f));
    var close := if f.ListFrame? then "]" else "}";
    Shift(OuterText(Front(d).open), FrameText(f), close);
  }

  /** A frame that no key is waiting in is the value it closes into, but for the bracket. */
  lemma {:induction false} ClosedFrame(f: Frame)
    requires GoodFrame(f, false) && (f.ObjectFrame? ==> f.key.None?)
    ensures Writable(FrameValue(f)) && |LastStates(f)| == 1
    ensures Render(FrameValue(f)) == FrameText(f) + (if f.ListFrame? then "]" else "}")
  {
    hide RenderMembers, RenderItems;
    if f.ObjectFrame? {
      assert FrameText(f) == "{" + RenderMembers(f.members);
    }
  }

  lemma {:induction false} OpenStates(d: Doc)
    requires GoodDoc(d) && d.open != []
    ensures d.top.None?
    ensures StatesOf(d) == AnnouncedStates(Front(d)) + LastStates(LastFrame(d))
  {
    hide OuterStates, LastStates, GoodFrame;
  }

  lemma {:induction false} NoKeyText(members: Members)
    ensures KeyText(members, None) == ""
  {
  }

  lemma {:induction false} KeyAddedText(d: Doc, name: string)
    requires GoodDoc(d) && KeyDue(d) && AllCopyable(name)
    ensures GoodDoc(AddKey(d, name)) && ValueDue(AddKey(d, name))
    ensures TextOf(AddKey(d, name)) == TextOf(d) + KeyText(LastFrame(d).members, Some(name))
    ensures StatesOf(AddKey(d, name)) == OuterStates(d.open) + [KEY] && KeyDue(d)
  {
    var f := LastFrame(d);
    var f' := f.(key := Some(name));
    NoKeyText(f.members);
    assert FrameText(f') == FrameText(f) + KeyText(f.members, Some(name)) by {
      hide KeyText, RenderMembers;
    }
    WithLastParts(d, f');
    hide FrameText, KeyText, TextOf, StatesOf, OuterText, Writable, GoodDoc;
    Shift(OuterText(d.open[..|d.open| - 1]), FrameText(f), KeyText(f.members, Some(name)));
  }

  // ---- closing everything

  /** `jsonFinishCurrent` until the stack is empty. */
  function CloseAll(d: Doc): (r: Doc)
    requires GoodDoc(d)
    ensures GoodDoc(r) && r.open == []
    ensures d.open != [] || d.top.Some? ==> r.top.Some?
    ensures d.open == [] ==> r == d
    decreases |StatesOf(d)|
  {
    if d.open == [] then d
    else if LastFrame(d).ObjectFrame? && LastFrame(d).key.Some? then
      ValueText(d, Null);
      CloseAll(AddValue(d, Null))
    else
      CloseText(d);
      CloseAll(Close(d))
  }

  /** Closing only appends, and ends in one well-formed JSON text that reads back as the document. */
  lemma {:induction false} ClosedIsWellFormed(d: Doc)
    requires GoodDoc(d) && (d.open != [] || d.top.Some?)
    ensures TextOf(d) <= TextOf(CloseAll(d))
    ensures StatesOf(CloseAll(d)) == []
    ensures ReadDocument(TextOf(CloseAll(d))) == if FiniteDoc(d) then CloseAll(d).top else None
    decreases |StatesOf(d)|
  {
    hide ReadDocument, GoodDoc, TextOf, Render, ValueSeparator, StatesOf, FiniteDoc;
    if d.open == [] {
      FinishedText(d);
    } else if LastFrame(d).ObjectFrame? && LastFrame(d).key.Some? {
      ValueText(d, Null);
      FewerStates(d);
      AddFinite(d, Null);
      ClosedIsWellFormed(AddValue(d, Null));
    } else {
      CloseText(d);
      FewerStates(d);
      CloseFinite(d);
      ClosedIsWellFormed(Close(d));
    }
  }

  // ---- which documents are free of infinite numbers

  ghost predicate FiniteFrame(f: Frame)
  {
    match f
    case ObjectFrame(members, _) => GoodMembers(members)
    case ListFrame(items) => GoodItems(items)
  }

  /** Nothing written so far is infinite. */
  ghost predicate FiniteDoc(d: Doc)
  {
    (d.top.Some? ==> Good(d.top.value)) && forall i :: 0 <= i < |d.open| ==> FiniteFrame(d.open[i])
  }

  lemma {:induction false} WithLastFinite(d: Doc, f: Frame)
    requires GoodDoc(d) && d.open != []
    ensures FiniteDoc(d) <==> FiniteDoc(Front(d)) && FiniteFrame(LastFrame(d))
    ensures FiniteDoc(WithLast(d, f)) <==> FiniteDoc(Front(d)) && FiniteFrame(f)
    ensures FiniteDoc(OpenFrame(d, f)) <==> FiniteDoc(d) && FiniteFrame(f)
  {
    hide FiniteFrame, Good, GoodFrame;
    var n := |d.open| - 1;
    assert forall i :: 0 <= i < n ==> d.open[i] == Front(d).open[i] == WithLast(d, f).open[i];
    assert WithLast(d, f).open[n] == f && d.open[n] == LastFrame(d);
    assert OpenFrame(d, f).open[n + 1] == f && forall i :: 0 <= i <= n ==> OpenFrame(d, f).open[i] == d.open[i];
  }

  lemma {:induction false} AddFinite(d: Doc, v: Value)
    requires GoodDoc(d) && ValueDue(d)
    ensures FiniteDoc(AddValue(d, v)) <==> FiniteDoc(d) && Good(v)
  {
    if d.open != [] {
      WithLastFinite(d, Added(LastFrame(d), v));
      assert FiniteFrame(Added(LastFrame(d), v)) <==> FiniteFrame(LastFrame(d)) && Good(v);
    }
  }

  lemma {:induction false} CloseFinite(d: Doc)
    requires GoodDoc(d) && CanClose(d) && GoodDoc(Front(d))
    ensures FiniteDoc(Close(d)) <==> FiniteDoc(d)
  {
    WithLastFinite(d, LastFrame(d));
    AddFinite(Front(d), FrameValue(LastFrame(d)));
    assert Good(FrameValue(LastFrame(d))) <==> FiniteFrame(LastFrame(d));
  }

  lemma {:induction false} KeyFinite(d: Doc, name: string)
    requires GoodDoc(d) && KeyDue(d)
    ensures FiniteDoc(AddKey(d, name)) <==> FiniteDoc(d)
  {
    WithLastFinite(d, LastFrame(d).(key := Some(name)));
    assert FiniteFrame(LastFrame(d).(key := Some(name))) <==> FiniteFrame(LastFrame(d));
  }

  lemma {:induction false} OpenFinite(d: Doc, f: Frame)
    requires GoodDoc(d) && (f == ObjectFrame(NoMembers, None) || f == ListFrame(NoItems))
    ensures FiniteDoc(OpenFrame(d, f)) <==> FiniteDoc(d)
  {
    if d.open == [] {
      assert OpenFrame(d, f).open[0] == f;
    } else {
      WithLastFinite(d, f);
    }
  }

  lemma {:induction false} FinishedText(d: Doc)
    requires GoodDoc(d) && d.open == [] && d.top.Some?
    ensures ReadDocument(TextOf(d)) == (if FiniteDoc(d) then d.top else None) && StatesOf(d) == []
  {
    hide Render, ReadDocument;
    RoundTrip(d.top.value);
  }

  lemma {:induction false} FewerStates(d: Doc)
    requires GoodDoc(d) && d.open != []
    ensures LastFrame(d).ObjectFrame? && LastFrame(d).key.Some? ==> |StatesOf(AddValue(d, Null))| < |StatesOf(d)|
    ensures (LastFrame(d).ObjectFrame? && LastFrame(d).key.Some?) || (CanClose(d) && |StatesOf(Close(d))| < |StatesOf(d)|)
  {
    if LastFrame(d).ObjectFrame? && LastFrame(d).key.Some? {
      ValueText(d, Null);
    } else {
      CloseText(d);
    }
    hide GoodDoc, TextOf;
  }

  // ---- any sequence of calls

  datatype Call = Key(name: string) | Leaf(v: Value) | StartObject | StartList | FinishObject | FinishList

  /** What the asserts of the writer demand. */
  ghost predicate Legal(d: Doc, x: Call)
  {
    match x
    case Key(name) => KeyDue(d) && AllCopyable(name)
    case Leaf(v) => ValueDue(d) && Writable(v)
    case StartObject => ValueDue(d)
    case StartList => ValueDue(d)
    case FinishObject => KeyDue(d)
    case FinishList => d.open != [] && LastFrame(d).ListFrame?
  }

  function Apply(d: Doc, x: Call): (r: Doc)
    requires GoodDoc(d) && Legal(d, x)
    ensures GoodDoc(r) && TextOf(d) <= TextOf(r)
  {
    match x
    case Key(name) => KeyAddedText(d, name); AddKey(d, name)
    case Leaf(v) => ValueText(d, v); AddValue(d, v)
    case StartObject => OpenText(d, ObjectFrame(NoMembers, None)); OpenFrame(d, ObjectFrame(NoMembers, None))
    case StartList => OpenText(d, ListFrame(NoItems)); OpenFrame(d, ListFrame(NoItems))
    case FinishObject => CloseText(d); Close(d)
    case FinishList => CloseText(d); Close(d)
  }

  /** docs are the documents along a sequence of calls that meets the asserts. */
  ghost predicate IsRun(docs: seq<Doc>, calls: seq<Call>)
  {
    && |docs| == |calls| + 1 && docs[0] == Doc(None, [])
    && forall i :: 0 <= i < |calls| ==>
         GoodDoc(docs[i]) && Legal(docs[i], calls[i]) && docs[i + 1] == Apply(docs[i], calls[i])
  }

  lemma {:induction false} RunGood(docs: seq<Doc>, calls: seq<Call>, i: nat)
    requires IsRun(docs, calls) && i < |docs|
    ensures GoodDoc(docs[i])
    ensures i > 0 ==> docs[i].open != [] || docs[i].top.Some?
    decreases i
  {
    if i > 0 {
      RunGood(docs, calls, i - 1);
      hide GoodDoc, TextOf, Legal, StatesOf;
      assert docs[i] == Apply(docs[i - 1], calls[i - 1]);
      SomethingWritten(docs[i - 1], calls[i - 1]);
    }
  }

  lemma {:induction false} SomethingWritten(d: Doc, x: Call)
    requires GoodDoc(d) && Legal(d, x)
    ensures Apply(d, x).open != [] || Apply(d, x).top.Some?
  {
    hide TextOf, StatesOf, Writable;
    if x.FinishObject? || x.FinishList? {
      CloseText(d);
    }
  }

  /** A call makes a document infinite exactly by writing an infinite number. */
  lemma {:induction false} ApplyFinite(d: Doc, x: Call)
    requires GoodDoc(d) && Legal(d, x)
    ensures FiniteDoc(Apply(d, x)) <==> FiniteDoc(d) && (x.Leaf? ==> Good(x.v))
  {
    hide FiniteDoc, Good, Writable, TextOf, StatesOf;
    match x
    case Key(name) => KeyFinite(d, name);
    case Leaf(v) => AddFinite(d, v);
    case StartObject => OpenFinite(d, ObjectFrame(NoMembers, None));
    case StartList => OpenFinite(d, ListFrame(NoItems));
    case FinishObject => CloseText(d); CloseFinite(d);
    case FinishList => CloseText(d); CloseFinite(d);
  }

  lemma {:induction false} NothingFinite()
    ensures FiniteDoc(Doc(None, []))
  {
  }

  lemma {:induction false} RunFinite(docs: seq<Doc>, calls: seq<Call>, i: nat)
    requires IsRun(docs, calls) && i < |docs|
    ensures FiniteDoc(docs[i]) <==> forall k :: 0 <= k < i && calls[k].Leaf? ==> Good(calls[k].v)
    decreases i
  {
    NothingFinite();
    hide FiniteDoc, Good, GoodDoc, Legal, TextOf, StatesOf, Apply;
    if i > 0 {
      RunFinite(docs, calls, i - 1);
      assert docs[i] == Apply(docs[i - 1], calls[i - 1]);
      ApplyFinite(docs[i - 1], calls[i - 1]);
    }
  }

  /** Any legal sequence of calls, however deep and wherever it stops, is closed into a text that
      begins with everything written before, and that is one well-formed JSON text of the document
      exactly when no call wrote an infinite number. */
  lemma {:induction false} AnyRunIsWellFormed(docs: seq<Doc>, calls: seq<Call>)
    requires IsRun(docs, calls) && |calls| > 0
    ensures GoodDoc(docs[|calls|])
    ensures var d := docs[|calls|];
            && TextOf(d) <= TextOf(CloseAll(d))
            && CloseAll(d).top.Some?
            && ReadDocument(TextOf(CloseAll(d)))
               == if forall k :: 0 <= k < |calls| && calls[k].Leaf? ==> Good(calls[k].v) then CloseAll(d).top else None
  {
    RunGood(docs, calls, |calls|);
    RunFinite(docs, calls, |calls|);
    hide FiniteDoc, Good, IsRun, TextOf, ReadDocument, GoodDoc;
    ClosedIsWellFormed(docs[|calls|]);
  }

  // ---- the writer

  const LIMIT: nat := 2048

  /** A double as `%lf` sees it: NaN, infinite, or finite by its sign, whole part and six decimals. */
  datatype Double = NaN | Infinite(negative: bool) | Finite(negative: bool, whole: nat, micro: nat)

  function DoubleText(x: Double): string
  {
    match x
    case NaN => "\"nan\""
    case Infinite(negative) => if negative then "-inf" else "inf"
    case Finite(negative, whole, micro) => FixedText(negative, whole, micro)
  }

  function DoubleValue(x: Double): (v: Value)
    ensures Writable(v)
  {
    if x.NaN? then Str("nan") else Num(DoubleText(x))
  }

  /** What is printed for a double is JSON exactly when it is not infinite, and a document is, exactly
      when none is in it (ClosedIsWellFormed). */
  lemma {:induction false} DoubleIsJson(x: Double)
    ensures Render(DoubleValue(x)) == DoubleText(x)
    ensures Good(DoubleValue(x)) <==> !x.Infinite?
    ensures ReadDocument(DoubleText(x)).Some? <==> !x.Infinite?
  {
    hide ReadDocument, Escape, Writable, FixedText, IsNumber, ReadValue;
    PlainEscape("nan");
    RoundTrip(DoubleValue(x));
    if x.Infinite? {
      InfinityFails(DoubleText(x), []);
    }
    assert x.NaN? ==> Render(DoubleValue(x)) == DoubleText(x);
  }

  /** The text of a finite double has its sign, whole part and six digits; an infinite one keeps its sign. */
  lemma {:induction false} DoubleReads(x: Double)
    ensures x.Finite? && x.micro < 1_000_000 ==>
              var s := DoubleText(x);
              && |s| >= 8 && (x.negative <==> s[0] == '-') && s[|s| - 7] == '.'
              && NumberOf(s[if x.negative then 1 else 0..|s| - 7]) == x.whole && NumberOf(s[|s| - 6..]) == x.micro
    ensures x.Infinite? ==> DoubleText(x) == (if x.negative then "-" else "") + "inf"
  {
    hide FixedText, NumberOf;
    if x.Finite? && x.micro < 1_000_000 {
      FixedReads(x.negative, x.whole, x.micro);
    }
  }

  function StrValue(s: Option<string>): (v: Value)
    ensures Writable(v) && Good(v)
  {
    if s.None? then Null else Str(Sanitized(s.value, LIMIT))
  }

  // ---- what the top of the stack says about the document

  lemma {:induction false} KeyStates(d: Doc)
    requires KeyDue(d)
    ensures var s := StatesOf(d);
            && s != [] && s[|s| - 1] == (if LastFrame(d).members.NoMembers? then OBJECT_EMPTY else OBJECT_SOME)
            && s[..|s| - 1] + [OBJECT_SOME] == OuterStates(d.open)
  {
  }

  lemma {:induction false} AnnounceStates(d: Doc)
    requires ValueDue(d)
    ensures var s := StatesOf(d);
            if d.open == [] then s == [] == AnnouncedStates(d)
            else
              s != [] &&
              match LastFrame(d)
              case ListFrame(items) =>
                && s[|s| - 1] == (if items.NoItems? then LIST_EMPTY else LIST_SOME)
                && s[..|s| - 1] + [LIST_SOME] == AnnouncedStates(d)
              case ObjectFrame(_, _) => s[|s| - 1] == KEY && s[..|s| - 1] == AnnouncedStates(d)
  {
  }

  lemma {:induction false} TopState(d: Doc)
    ensures StatesOf(d) == [] <==> d.open == []
    ensures d.open != [] ==>
              var s := StatesOf(d)[|StatesOf(d)| - 1];
              && (s == KEY <==> LastFrame(d).ObjectFrame? && LastFrame(d).key.Some?)
              && (s == OBJECT_EMPTY || s == OBJECT_SOME <==> KeyDue(d))
              && (s == LIST_EMPTY || s == LIST_SOME <==> LastFrame(d).ListFrame?)
    ensures KeyDue(d) ==> |StatesOf(d)| == |d.open|
  {
  }

  predicate Plain(c: char)
  {
    'a' <= c <= 'z' || c == '_'
  }

  lemma {:induction false} PlainEscape(s: string)
    requires forall i :: 0 <= i < |s| ==> Plain(s[i])
    ensures Escape(s) == s
  {
    hide Escape, EscapeChar;
    if s == [] {
      EmptyEscape();
    } else {
      var n := |s| - 1;
      PlainEscape(s[..n]);
      assert Plain(s[n]);
      CharText(s, n);
      assert s[..n] + [s[n]] == s[..n + 1] == s;
    }
  }

  /** A short text of letters and underscores is written as it is. */
  lemma {:induction false} Verbatim(s: string)
    requires |s| < 100 && forall i :: 0 <= i < |s| ==> Plain(s[i])
    ensures Sanitized(s, LIMIT) == s && Escape(s) == s && !FillsBuffer(s, LIMIT)
  {
    hide Sanitized;
    PlainEscape(s);
    WholeString(s, LIMIT);
    TerminatorAtLimit(s, LIMIT);
    assert AllCopyable(s) by {
      assert forall i :: 0 <= i < |s| ==> Plain(s[i]) && Copyable(s[i]);
    }
    if s != [] {
      PlainEscape(s[..|s| - 1]);
    }
  }

  /** A key is written as its separator, an opening quote, its text, and a closing quote and colon. */
  lemma {:induction false} KeyPieces(d: Doc, name: string)
    requires KeyDue(d)
    ensures var r := Sanitized(name, LIMIT);
            TextOf(d) + KeyText(LastFrame(d).members, Some(r))
            == TextOf(d) + (if LastFrame(d).members.NoMembers? then "" else ",") + "\"" + Escape(r) + "\":"
  {
    var r, sep := Sanitized(name, LIMIT), if LastFrame(d).members.NoMembers? then "" else ",";
    var text, e := TextOf(d), Escape(r);
    assert KeyText(LastFrame(d).members, Some(r)) == sep + ("\"" + e + "\"") + ":";
    hide TextOf, KeyText, Escape, Sanitized;
    Pieces(text, sep, e);
  }

  lemma {:induction false} Pieces(text: string, sep: string, e: string)
    ensures text + (sep + ("\"" + e + "\"") + ":") == text + sep + "\"" + e + "\":"
  {
  }

  /** The document with the end time closes into one object with that member last. */
  lemma {:induction false} EndTimeDoc(d: Doc, v: Value)
    requires GoodDoc(d) && KeyDue(d) && |d.open| == 1 && Writable(v) && AllCopyable("end_time")
    ensures GoodDoc(AddKey(d, "end_time")) && ValueDue(AddKey(d, "end_time"))
    ensures var e := AddValue(AddKey(d, "end_time"), v);
            && GoodDoc(e) && e.open != [] && TextOf(d) <= TextOf(e)
            && CloseAll(e).top == Some(Object(Member(LastFrame(d).members, "end_time", v)))
            && (FiniteDoc(e) <==> FiniteDoc(d) && Good(v))
  {
    hide FiniteDoc, TextOf, GoodDoc, StatesOf, Render, KeyText, Good, Writable;
    KeyFinite(d, "end_time");
    KeyAddedText(d, "end_time");
    ValueText(AddKey(d, "end_time"), v);
    AddFinite(AddKey(d, "end_time"), v);
    var e := AddValue(AddKey(d, "end_time"), v);
    CloseText(e);
    assert Close(e).open == [];
  }

  function StrItems(xs: seq<string>): Items
  {
    if xs == [] then NoItems else Item(StrItems(xs[..|xs| - 1]), StrValue(Some(xs[|xs| - 1])))
  }

  function HeadMembers(fileVersion: int, start: string, args: seq<string>, env: seq<string>, libVersion: int): Members
  {
    var m1 := Member(NoMembers, "version", Num(IntText(fileVersion)));
    var m2 := Member(m1, "start_time", StrValue(Some(start)));
    var m3 := Member(m2, "args", List(StrItems(args)));
    var m4 := Member(m3, "env", List(StrItems(env)));
    Member(m4, "nccl_version", Num(IntText(libVersion)))
  }

  lemma {:induction false} TopObject(ms: Members, key: string, v: Value)
    requires |key| < 100 && forall i :: 0 <= i < |key| ==> Plain(key[i])
    ensures Sanitized(key, LIMIT) == key && !FillsBuffer(key, LIMIT)
    ensures var d := Doc(None, [ObjectFrame(ms, None)]);
            && ValueDue(Doc(None, [])) && OpenFrame(Doc(None, []), ObjectFrame(ms, None)) == d
            && KeyDue(d) && ValueDue(AddKey(d, key))
            && AddValue(AddKey(d, key), v) == Doc(None, [ObjectFrame(Member(ms, key, v), None)])
  {
    Verbatim(key);
  }

  /** Some string of the list fills its buffer. */
  ghost predicate AnyFills(xs: seq<string>)
  {
    exists i :: 0 <= i < |xs| && FillsBuffer(xs[i], LIMIT)
  }

  class Writer {
    var states: seq<State>
    var out: string
    /** Some terminator was written past the end of its buffer. */
    var overran: bool
    ghost var doc: Doc

    ghost predicate Valid()
      reads this
    {
      GoodDoc(doc) && states == StatesOf(doc) && out == TextOf(doc)
    }

    constructor ()
      ensures Valid() && doc == Doc(None, []) && !overran
    {
      states, out, overran, doc := [], "", false, Doc(None, []);
    }

    method PushState(s: State)
      modifies this`states
      ensures states == old(states) + [s]
    {
      states := states + [s];
    }

    /** None stands for the empty stack. */
    method CurrState() returns (s: Option<State>)
      ensures s == if states == [] then None else Some(states[|states| - 1])
    {
      s := if |states| == 0 then None else Some(states[|states| - 1]);
    }

    method ReplaceState(s: State)
      requires states != []
      modifies this`states
      ensures states == old(states)[..|old(states)| - 1] + [s]
    {
      states := states[..|states| - 1] + [s];
    }

    method PopState() returns (s: Option<State>)
      modifies this`states
      ensures old(states) == [] ==> s == None && states == []
      ensures old(states) != [] ==> s.Some? && states + [s.value] == old(states)
    {
      if |states| == 0 {
        return None;
      }
      s := Some(states[|states| - 1]);
      states := states[..|states| - 1];
    }

    /** Separator before a key, the key, and the colon. */
    method Key(name: string)
      requires Valid() && KeyDue(doc)
      modifies this
      ensures Valid() && doc == AddKey(old(doc), Sanitized(name, LIMIT))
      ensures overran == (old(overran) || FillsBuffer(name, LIMIT))
    {
      hide FillsBuffer, GoodDoc, TextOf, StatesOf, OuterStates, Escape, Sanitized, KeyText, AddKey;
      KeyStates(doc);
      KeyAddedText(doc, Sanitized(name, LIMIT));
      KeyPieces(doc, name);
      var curr := CurrState();
      if curr == Some(OBJECT_EMPTY) {
        ReplaceState(OBJECT_SOME);
      } else {
        assert curr == Some(OBJECT_SOME);
        out := out + ",";
      }
      var tmp := new char[LIMIT];
      var ok, end, spilled := SanitizeJson(tmp, LIMIT, name);
      var body := tmp[..end];
      overran := overran || spilled;
      out := out + "\"" + body + "\":";
      PushState(KEY);
      doc := AddKey(doc, Sanitized(name, LIMIT));
    }

    /** Announces a value: its separator, and the state it leaves behind. */
    method ValHelper()
      requires Valid() && ValueDue(doc)
      modifies this`states, this`out
      ensures states == AnnouncedStates(doc) && out == old(out) + ValueSeparator(doc)
    {
      AnnounceStates(doc);
      var curr := CurrState();
      if curr == Some(LIST_EMPTY) {
        ReplaceState(LIST_SOME);
      } else if curr == Some(LIST_SOME) {
        out := out + ",";
      } else if curr == Some(KEY) {
        var _ := PopState();
      } else {
        assert curr == None;
      }
    }

    method StartObject()
      requires Valid() && ValueDue(doc)
      modifies this`states, this`out, this`doc
      ensures Valid() && doc == OpenFrame(old(doc), ObjectFrame(NoMembers, None))
    {
      OpenText(doc, ObjectFrame(NoMembers, None));
      ValHelper();
      out := out + "{";
      PushState(OBJECT_EMPTY);
      doc := OpenFrame(doc, ObjectFrame(NoMembers, None));
    }

    method StartList()
      requires Valid() && ValueDue(doc)
      modifies this`states, this`out, this`doc
      ensures Valid() && doc == OpenFrame(old(doc), ListFrame(NoItems))
    {
      OpenText(doc, ListFrame(NoItems));
      ValHelper();
      out := out + "[";
      PushState(LIST_EMPTY);
      doc := OpenFrame(doc, ListFrame(NoItems));
    }

    method FinishObject()
      requires Valid() && KeyDue(doc)
      modifies this`states, this`out, this`doc
      ensures CanClose(old(doc)) && Valid() && doc == Close(old(doc))
      ensures |states| < |old(states)|
    {
      hide GoodDoc, TextOf, StatesOf, Close;
      CloseText(doc);
      TopState(doc);
      var s := PopState();
      assert s == Some(OBJECT_EMPTY) || s == Some(OBJECT_SOME);
      out := out + "}";
      doc := Close(doc);
    }

    method FinishList()
      requires Valid() && doc.open != [] && LastFrame(doc).ListFrame?
      modifies this`states, this`out, this`doc
      ensures CanClose(old(doc)) && Valid() && doc == Close(old(doc))
      ensures |states| < |old(states)|
    {
      hide GoodDoc, TextOf, StatesOf, Close;
      CloseText(doc);
      TopState(doc);
      var s := PopState();
      assert s == Some(LIST_EMPTY) || s == Some(LIST_SOME);
      out := out + "]";
      doc := Close(doc);
    }

    /** The common part of all leaf values. */
    method Leaf(text: string, ghost v: Value)
      requires Valid() && ValueDue(doc) && Writable(v) && text == Render(v)
      modifies this`states, this`out, this`doc
      ensures Valid() && doc == AddValue(old(doc), v)
    {
      ValueText(doc, v);
      ValHelper();
      out := out + text;
      doc := AddValue(doc, v);
    }

    method Null()
      requires Valid() && ValueDue(doc)
      modifies this`states, this`out, this`doc
      ensures Valid() && doc == AddValue(old(doc), Value.Null)
    {
      Leaf("null", Value.Null);
    }

    /** A string is written up to the first character that cannot be copied. */
    method Str(s: Option<string>)
      requires Valid() && ValueDue(doc)
      modifies this
      ensures Valid() && doc == AddValue(old(doc), StrValue(s))
      ensures overran == (old(overran) || (s.Some? && FillsBuffer(s.value, LIMIT)))
    {
      hide FillsBuffer;
      if s.None? {
        Null();
        return;
      }
      var tmp := new char[LIMIT];
      var ok, end, spilled := SanitizeJson(tmp, LIMIT, s.value);
      overran := overran || spilled;
      Leaf("\"" + tmp[..end] + "\"", StrValue(s));
    }

    method Bool(val: bool)
      requires Valid() && ValueDue(doc)
      modifies this
      ensures Valid() && doc == AddValue(old(doc), Value.Str(if val then "true" else "false")) && overran == old(overran)
    {
      Verbatim(if val then "true" else "false");
      Str(Some(if val then "true" else "false"));
    }

    method Int(val: int)
      requires Valid() && ValueDue(doc)
      modifies this`states, this`out, this`doc
      ensures Valid() && doc == AddValue(old(doc), Num(IntText(val)))
    {
      Leaf(IntText(val), Num(IntText(val)));
    }

    method Double(val: Double)
      requires Valid() && ValueDue(doc)
      modifies this`states, this`out, this`doc
      ensures Valid() && doc == AddValue(old(doc), DoubleValue(val))
    {
      hide GoodDoc, TextOf, StatesOf, FixedText, Writable, Render, Good;
      DoubleIsJson(val);
      if val.NaN? {
        Leaf("\"nan\"", DoubleValue(val));
      } else {
        Leaf(DoubleText(val), DoubleValue(val));
      }
    }

    /** A list of strings. */
    method StrList(xs: seq<string>)
      requires Valid() && ValueDue(doc)
      modifies this
      ensures Valid() && doc == AddValue(old(doc), List(StrItems(xs)))
      ensures overran == (old(overran) || AnyFills(xs))
    {
      hide FillsBuffer, GoodDoc, TextOf, StatesOf, StrValue;
      ghost var before := doc;
      StartList();
      for i := 0 to |xs|
        invariant Valid() && doc == OpenFrame(before, ListFrame(StrItems(xs[..i])))
        invariant overran == (old(overran) || exists k :: 0 <= k < i && FillsBuffer(xs[k], LIMIT))
      {
        Str(Some(xs[i]));
        assert xs[..i + 1][..i] == xs[..i];
        assert doc.open == before.open + [ListFrame(StrItems(xs[..i + 1]))];
      }
      assert xs[..|xs|] == xs;
      FinishList();
      assert Front(OpenFrame(before, ListFrame(StrItems(xs)))) == before;
    }

    /** The head of every report: an object that stays open for the results. */
    method OutputInit(fileVersion: int, start: string, args: seq<string>, env: seq<string>, libVersion: int)
      requires Valid() && doc == Doc(None, [])
      modifies this
      ensures Valid() && doc == Doc(None, [ObjectFrame(HeadMembers(fileVersion, start, args, env, libVersion), None)])
      ensures overran == (old(overran) || FillsBuffer(start, LIMIT) || AnyFills(args) || AnyFills(env))
    {
      hide FillsBuffer, AnyFills, GoodDoc, TextOf, StatesOf, StrValue, Sanitized, StrItems, KeyDue, ValueDue, AddKey, AddValue,
        IntText, Escape;
      TopObject(NoMembers, "version", Num(IntText(fileVersion)));
      StartObject();
      Key("version");
      Int(fileVersion);
      ghost var ms := Member(NoMembers, "version", Num(IntText(fileVersion)));
      TopObject(ms, "start_time", StrValue(Some(start)));
      Key("start_time");
      Str(Some(start));
      ms := Member(ms, "start_time", StrValue(Some(start)));
      TopObject(ms, "args", List(StrItems(args)));
      Key("args");
      StrList(args);
      ms := Member(ms, "args", List(StrItems(args)));
      TopObject(ms, "env", List(StrItems(env)));
      Key("env");
      StrList(env);
      ms := Member(ms, "env", List(StrItems(env)));
      TopObject(ms, "nccl_version", Num(IntText(libVersion)));
      Key("nccl_version");
      Int(libVersion);
    }

    /** Closes the innermost thing that is open; a key without value gets null. */
    method FinishCurrent()
      requires Valid() && states != []
      modifies this`states, this`out, this`doc
      ensures Valid() && |states| < |old(states)|
      ensures GoodDoc(old(doc)) && CloseAll(doc) == CloseAll(old(doc))
    {
      TopState(doc);
      var curr := CurrState();
      match curr.value
      case KEY =>
        ValueText(doc, Value.Null);
        Null();
      case OBJECT_EMPTY => FinishObject();
      case OBJECT_SOME => FinishObject();
      case LIST_EMPTY => FinishList();
      case LIST_SOME => FinishList();
    }

    /** Adds the end time to a document that is one open object, then closes everything: the stack
        is empty, and the output is one well-formed JSON text of the whole document unless an
        infinite number was written. */
    method OutputFinalize(now: string)
      requires Valid() && (doc.open != [] || doc.top.Some?)
      modifies this
      ensures states == [] && GoodDoc(old(doc)) && old(out) <= out
      ensures ReadDocument(out).Some? <==> FiniteDoc(old(doc))
      ensures FiniteDoc(old(doc)) && (|old(states)| != 1 || !KeyDue(old(doc))) ==> ReadDocument(out) == CloseAll(old(doc)).top
      ensures FiniteDoc(old(doc)) && |old(states)| == 1 && KeyDue(old(doc)) ==>
                ReadDocument(out) == Some(Object(Member(LastFrame(old(doc)).members, "end_time", StrValue(Some(now)))))
      ensures overran == (old(overran) || (|old(states)| == 1 && KeyDue(old(doc)) && FillsBuffer(now, LIMIT)))
    {
      hide FillsBuffer, FiniteDoc, GoodDoc, TextOf, StatesOf, ReadDocument, AddKey, AddValue, StrValue, CloseAll;
      TopState(doc);
      ghost var before := doc;
      var curr := CurrState();
      if |states| == 1 && (curr == Some(OBJECT_EMPTY) || curr == Some(OBJECT_SOME)) {
        Verbatim("end_time");
        Key("end_time");
        EndTimeDoc(before, StrValue(Some(now)));
        Str(Some(now));
      }
      CloseEverything();
    }

    /** `while (state_n > 0) jsonFinishCurrent();` */
    method CloseEverything()
      requires Valid() && (doc.open != [] || doc.top.Some?)
      modifies this`states, this`out, this`doc
      ensures states == [] && GoodDoc(old(doc)) && old(out) <= out
      ensures ReadDocument(out) == if FiniteDoc(old(doc)) then CloseAll(old(doc)).top else None
    {
      hide GoodDoc, TextOf, StatesOf, ReadDocument, FiniteDoc, CloseAll;
      ClosedIsWellFormed(doc);
      ghost var closed := CloseAll(doc);
      while |states| > 0
        invariant Valid() && CloseAll(doc) == closed
        decreases |states|
      {
        FinishCurrent();
      }
      TopState(doc);
      assert doc == closed;
    }
  }

  // ---- such call sequences exist

  lemma {:induction false} RunStarts()
    ensures IsRun([Doc(None, [])], [])
  {
  }

  lemma {:induction false} RunGoesOn(docs: seq<Doc>, calls: seq<Call>, x: Call)
    requires IsRun(docs, calls) && GoodDoc(docs[|calls|]) && Legal(docs[|calls|], x)
    ensures IsRun(docs + [Apply(docs[|calls|], x)], calls + [x])
  {
    hide Apply, Legal, GoodDoc, TextOf;
    var docs', calls' := docs + [Apply(docs[|calls|], x)], calls + [x];
    forall i | 0 <= i < |calls'|
      ensures GoodDoc(docs'[i]) && Legal(docs'[i], calls'[i]) && docs'[i + 1] == Apply(docs'[i], calls'[i])
    {
      assert docs'[i] == docs[i] && (i < |calls| ==> calls'[i] == calls[i] && docs'[i + 1] == docs[i + 1]);
    }
  }

  /** Until the text is complete there is always a call that the asserts permit: a key or the end where a
      key is due, a value or a bracket elsewhere. */
  lemma {:induction false} SomethingLegal(d: Doc, name: string, v: Value)
    requires AllCopyable(name) && Writable(v)
    ensures KeyDue(d) ==> Legal(d, Key(name)) && Legal(d, FinishObject)
    ensures ValueDue(d) ==> Legal(d, Leaf(v)) && Legal(d, StartObject) && Legal(d, StartList)
    ensures d.open != [] && LastFrame(d).ListFrame? ==> Legal(d, FinishList)
    ensures d.open != [] || d.top.None? ==> KeyDue(d) || ValueDue(d)
  {
  }
}
