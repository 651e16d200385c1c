/** The on-screen keyboard: a hidden field whose edits are mirrored to the remote
    application as Backspaces for the removed tail and key taps for the added one. */
module SoftKeyboard {
  import opened UsLayout

  const BUFFER_TRIM_AT: nat := 64
  const BUFFER_KEEP: nat := 16

  /** The field, the value last mirrored, the remote text field, and the text in front
      of the caret that the hidden field no longer holds. */
  datatype Field = Field(value: Text, prev: Text, composing: bool, remote: Remote, history: Text)

  datatype Event = LineBreak | DeleteBackward | DeleteForward | Input(value: Text)
                 | CompositionStart | CompositionEnd | FocusChange

  // ---------------------------------------------------------------- the edit script

  /** Length of the longest common prefix. */
  function Common(a: Text, b: Text): (n: nat)
    ensures n <= |a| && n <= |b| && a[..n] == b[..n]
    ensures n == |a| || n == |b| || a[n] != b[n]
  {
    if a == [] || b == [] || a[0] != b[0] then 0 else 1 + Common(a[1..], b[1..])
  }

  lemma {:induction false} CommonIs(a: Text, b: Text, n: nat)
    requires n <= |a| && n <= |b| && a[..n] == b[..n]
    requires n == |a| || n == |b| || a[n] != b[n]
    ensures Common(a, b) == n
  {
    if n > 0 {
      assert a[..n][0] == b[..n][0] && a[1..][..n - 1] == a[..n][1..] && b[1..][..n - 1] == b[..n][1..];
      CommonIs(a[1..], b[1..], n - 1);
    }
  }

  method CommonPrefix(a: Text, b: Text) returns (n: nat)
    ensures n == Common(a, b)
  {
    n := 0;
    var max := if |a| < |b| then |a| else |b|;
    while n < max && a[n] == b[n]
      invariant n <= max && a[..n] == b[..n]
    {
      n := n + 1;
    }
    CommonIs(a, b, n);
  }

  lemma CommonBehind(h: Text, a: Text, b: Text)
    ensures Common(h + a, h + b) == |h| + Common(a, b)
  {
    var n := Common(a, b);
    assert (h + a)[..|h| + n] == h + a[..n];
    assert (h + b)[..|h| + n] == h + b[..n];
    CommonIs(h + a, h + b, |h| + n);
  }

  function Taps(code: Code, n: nat): seq<Message> {
    if n == 0 then [] else Taps(code, n - 1) + [KeyDown(code), KeyUp(code)]
  }

  function Typed(text: Text): seq<Message> {
    if text == [] then []
    else Typed(text[..|text| - 1])
         + match Stroke(text[|text| - 1])
           case Some(k) => Tap(k)
           case None => []
  }

  /** What one flush sends. */
  function Script(prev: Text, cur: Text): seq<Message> {
    var common := Common(prev, cur);
    Taps(Backspace, |prev| - common) + Typed(cur[common..])
  }

  function Dropped(text: Text, n: nat): Text {
    if n <= |text| then text[..|text| - n] else []
  }

  lemma {:induction false} TapsErase(r: Remote, n: nat)
    ensures ReceiveAll(r, Taps(Backspace, n)) == r.(left := Dropped(r.left, n))
  {
    if n > 0 {
      TapsErase(r, n - 1);
      var ms := [KeyDown(Backspace), KeyUp(Backspace)];
      ReceiveMore(r, Taps(Backspace, n - 1), ms);
      TapOnce(r.(left := Dropped(r.left, n - 1)), Backspace);
    }
  }

  lemma TapOnce(r: Remote, code: Code)
    requires code != ShiftLeft
    ensures ReceiveAll(r, [KeyDown(code), KeyUp(code)]) == Press(r, code)
  {
    var ms := [KeyDown(code), KeyUp(code)];
    assert ms[..1] == [KeyDown(code)];
    assert ReceiveAll(r, ms[..1]) == Receive(r, KeyDown(code));
  }

  lemma {:induction false} TypableOfSnoc(text: Text, c: Unit)
    ensures TypableOf(text + [c]) == TypableOf(text) + if Typable(c) then [c] else []
  {
    hide Typable;
    if text != [] {
      assert (text + [c])[1..] == text[1..] + [c];
      TypableOfSnoc(text[1..], c);
    } else {
      assert (text + [c])[1..] == [];
    }
  }

  lemma {:induction false} TypedTypes(r: Remote, text: Text)
    requires !r.shift
    ensures ReceiveAll(r, Typed(text)) == r.(left := r.left + TypableOf(text))
  {
    hide Stroke, Tap;
    if text == [] {
      assert r.left + [] == r.left;
    } else {
      var init, c := text[..|text| - 1], text[|text| - 1];
      TypedTypes(r, init);
      assert text == init + [c];
      TypableOfSnoc(init, c);
      var mid := r.(left := r.left + TypableOf(init));
      if Typable(c) {
        ReceiveMore(r, Typed(init), Tap(Stroke(c).value));
        TapTypes(mid, c);
        assert r.left + (TypableOf(init) + [c]) == (r.left + TypableOf(init)) + [c];
      } else {
        assert Typed(text) == Typed(init) + [] == Typed(init);
        assert TypableOf(init) + [] == TypableOf(init);
      }
    }
  }

  ghost predicate AllTypable(text: Text) {
    forall i | 0 <= i < |text| :: Typable(text[i])
  }

  /** A text keeps all its characters exactly when each has a key. */
  lemma {:induction false} TypableOfAll(text: Text)
    ensures |TypableOf(text)| <= |text|
    ensures TypableOf(text) == text <==> AllTypable(text)
  {
    hide Typable;
    if text != [] {
      TypableOfAll(text[1..]);
      if AllTypable(text) {
        forall i | 0 <= i < |text[1..]| ensures Typable(text[1..][i]) {
          assert text[1..][i] == text[i + 1];
        }
      } else if AllTypable(text[1..]) {
        forall i | 1 <= i < |text| ensures Typable(text[i]) {
          assert text[1..][i - 1] == text[i];
        }
        assert !Typable(text[0]);
      } else if Typable(text[0]) {
        assert TypableOf(text)[1..] == TypableOf(text[1..]);
      }
    }
  }

  /** Whatever the remote text, the script erases one character per removed one and
      types what can be typed of the added ones. */
  lemma ScriptEffect(r: Remote, prev: Text, cur: Text)
    requires !r.shift
    ensures var c := Common(prev, cur);
            ReceiveAll(r, Script(prev, cur)) == r.(left := Dropped(r.left, |prev| - c) + TypableOf(cur[c..]))
  {
    hide Taps, Typed, ReceiveAll, TypableOf, Common, Dropped;
    var c := Common(prev, cur);
    ReceiveMore(r, Taps(Backspace, |prev| - c), Typed(cur[c..]));
    TapsErase(r, |prev| - c);
    TypedTypes(r.(left := Dropped(r.left, |prev| - c)), cur[c..]);
  }

  /** The script turns `prev` into `cur` behind any text, minus what cannot be typed. */
  lemma ScriptMeans(r: Remote, h: Text, prev: Text, cur: Text)
    requires !r.shift && r.left == h + prev
    ensures var c := Common(prev, cur);
            ReceiveAll(r, Script(prev, cur)) == r.(left := h + cur[..c] + TypableOf(cur[c..]))
  {
    hide Script, ReceiveAll, TypableOf, Common;
    var c := Common(prev, cur);
    ScriptEffect(r, prev, cur);
    assert Dropped(r.left, |prev| - c) == h + prev[..c];
  }

  // ---------------------------------------------------------------- every key comes up

  lemma {:induction false} TapsRelease(code: Code, n: nat)
    ensures Down(Taps(code, n)) == {}
  {
    if n > 0 {
      TapsRelease(code, n - 1);
      DownMore(Taps(code, n - 1), [KeyDown(code), KeyUp(code)]);
      TapReleases(KeyStroke(code, false));
    }
  }

  lemma {:induction false} TypedReleases(text: Text)
    ensures Down(Typed(text)) == {}
  {
    hide Stroke, Tap;
    if text != [] {
      var init, k := text[..|text| - 1], Stroke(text[|text| - 1]);
      TypedReleases(init);
      if k.Some? {
        DownMore(Typed(init), Tap(k.value));
        TapReleases(k.value);
      } else {
        assert Typed(init) + [] == Typed(init);
      }
    }
  }

  /** After a flush no key is left down. */
  lemma ScriptReleases(prev: Text, cur: Text)
    ensures Down(Script(prev, cur)) == {}
  {
    hide Taps, Typed, Common, Down;
    var c := Common(prev, cur);
    TapsRelease(Backspace, |prev| - c);
    TypedReleases(cur[c..]);
    DownMore(Taps(Backspace, |prev| - c), Typed(cur[c..]));
  }

  lemma ScriptAfter(ms: seq<Message>, prev: Text, cur: Text)
    requires Down(ms) == {}
    ensures Down(ms + Script(prev, cur)) == {}
  {
    ScriptReleases(prev, cur);
    DownMore(ms, Script(prev, cur));
  }

  // ---------------------------------------------------------------- minimality

  predicate Erases(m: Message) { m == KeyDown(Backspace) }

  predicate Writes(m: Message) {
    m.KeyDown? && !m.code.Backspace? && !m.code.Delete? && !m.code.ShiftLeft?
  }

  function Count(ms: seq<Message>, p: Message -> bool): nat {
    if ms == [] then 0 else Count(ms[..|ms| - 1], p) + if p(ms[|ms| - 1]) then 1 else 0
  }

  /** One message shortens the agreement with a text by one at most, and only by
      erasing; it lengthens it by one at most, and only by writing. */
  lemma MessageMovesAgreement(r: Remote, m: Message, text: Text)
    ensures var a, b := Common(r.left, text), Common(Receive(r, m).left, text);
            b + (if Erases(m) then 1 else 0) >= a && b <= a + (if Writes(m) then 1 else 0)
  {
    hide Common, Produces;
    var s := Receive(r, m);
    if |s.left| == |r.left| + 1 {
      AgreementGrows(r.left, s.left[|r.left|], text);
      assert s.left == r.left + [s.left[|r.left|]];
    } else if |s.left| + 1 == |r.left| {
      AgreementGrows(s.left, r.left[|s.left|], text);
      assert r.left == s.left + [r.left[|s.left|]];
    } else {
      assert s.left == r.left;
    }
  }

  lemma AgreementGrows(a: Text, c: Unit, text: Text)
    ensures Common(a, text) <= Common(a + [c], text) <= Common(a, text) + 1
  {
    var n := Common(a, text);
    assert (a + [c])[..n] == a[..n];
    if n == |a| && n < |text| && text[n] == c {
      assert (a + [c])[..n + 1] == text[..n + 1];
      CommonIs(a + [c], text, n + 1);
    } else {
      CommonIs(a + [c], text, n);
    }
  }

  lemma {:induction false} MessagesMoveAgreement(r: Remote, ms: seq<Message>, text: Text)
    ensures var a, b := Common(r.left, text), Common(ReceiveAll(r, ms).left, text);
            b + Count(ms, Erases) >= a && b <= a + Count(ms, Writes)
  {
    if ms != [] {
      var init := ms[..|ms| - 1];
      MessagesMoveAgreement(r, init, text);
      MessageMovesAgreement(ReceiveAll(r, init), ms[|ms| - 1], text);
    }
  }

  /** No key sequence whatever leads to the same text with fewer Backspaces, nor with
      fewer writing keys, than a flush uses. */
  lemma NoShorterScript(r: Remote, h: Text, prev: Text, cur: Text, ms: seq<Message>)
    requires r.left == h + prev && ReceiveAll(r, ms).left == h + cur
    ensures Count(ms, Erases) >= |prev| - Common(prev, cur) == Count(Script(prev, cur), Erases)
    ensures Count(ms, Writes) >= |cur| - Common(prev, cur) >= Count(Script(prev, cur), Writes)
  {
    hide Common, Count, Script, ReceiveAll;
    MessagesMoveAgreement(r, ms, h + prev);
    MessagesMoveAgreement(r, ms, h + cur);
    CommonBehind(h, prev, cur);
    CommonBehind(h, cur, prev);
    CommonIs(h + prev, h + prev, |h + prev|);
    CommonIs(h + cur, h + cur, |h + cur|);
    CommonIs(cur, prev, Common(prev, cur));
    ScriptCounts(prev, cur);
  }

  lemma {:induction false} CountMore(a: seq<Message>, b: seq<Message>, p: Message -> bool)
    ensures Count(a + b, p) == Count(a, p) + Count(b, p)
  {
    if b == [] {
      assert a + b == a;
    } else {
      assert (a + b)[..|a + b| - 1] == a + b[..|b| - 1];
      CountMore(a, b[..|b| - 1], p);
    }
  }

  lemma CountScript(prev: Text, cur: Text, p: Message -> bool)
    ensures var c := Common(prev, cur);
            Count(Script(prev, cur), p) == Count(Taps(Backspace, |prev| - c), p) + Count(Typed(cur[c..]), p)
  {
    hide Taps, Typed, Count, Common;
    var c := Common(prev, cur);
    CountMore(Taps(Backspace, |prev| - c), Typed(cur[c..]), p);
  }

  lemma ScriptCounts(prev: Text, cur: Text)
    ensures Count(Script(prev, cur), Erases) == |prev| - Common(prev, cur)
    ensures Count(Script(prev, cur), Writes) <= |cur| - Common(prev, cur)
  {
    hide Taps, Typed, Erases, Writes, Count, Common, Script;
    var c := Common(prev, cur);
    CountScript(prev, cur, Erases);
    CountScript(prev, cur, Writes);
    TapsCount(|prev| - c);
    TypedCounts(cur[c..]);
  }

  lemma {:induction false} TapsCount(n: nat)
    ensures Count(Taps(Backspace, n), Erases) == n && Count(Taps(Backspace, n), Writes) == 0
  {
    if n > 0 {
      TapsCount(n - 1);
      var ms := [KeyDown(Backspace), KeyUp(Backspace)];
      CountMore(Taps(Backspace, n - 1), ms, Erases);
      CountMore(Taps(Backspace, n - 1), ms, Writes);
      assert ms[..1] == [KeyDown(Backspace)];
    }
  }

  lemma {:induction false} TypedCounts(text: Text)
    ensures Count(Typed(text), Erases) == 0 && Count(Typed(text), Writes) <= |text|
  {
    hide Stroke, Tap;
    if text != [] {
      var init, c := text[..|text| - 1], text[|text| - 1];
      TypedCounts(init);
      if Typable(c) {
        CountMore(Typed(init), Tap(Stroke(c).value), Erases);
        CountMore(Typed(init), Tap(Stroke(c).value), Writes);
        TapCounts(c);
      } else {
        assert Typed(text) == Typed(init) + [] == Typed(init);
      }
    }
  }

  lemma CountPair(a: Message, b: Message, p: Message -> bool)
    ensures Count([a], p) == if p(a) then 1 else 0
    ensures Count([a, b], p) == Count([a], p) + if p(b) then 1 else 0
  {
    assert [a, b][..1] == [a];
  }

  lemma TapCounts(c: Unit)
    requires Typable(c)
    ensures Count(Tap(Stroke(c).value), Erases) == 0 && Count(Tap(Stroke(c).value), Writes) == 1
  {
    StrokeIsPlain(c);
    var k := Stroke(c).value;
    TapCountsFor(k, Erases);
    TapCountsFor(k, Writes);
  }

  lemma TapCountsFor(k: KeyStroke, p: Message -> bool)
    requires !p(KeyDown(ShiftLeft)) && !p(KeyUp(ShiftLeft)) && !p(KeyUp(k.code))
    ensures Count(Tap(k), p) == if p(KeyDown(k.code)) then 1 else 0
  {
    var body := [KeyDown(k.code), KeyUp(k.code)];
    CountPair(KeyDown(k.code), KeyUp(k.code), p);
    if k.shift {
      CountPair(KeyDown(ShiftLeft), KeyUp(ShiftLeft), p);
      CountPair(KeyUp(ShiftLeft), KeyUp(ShiftLeft), p);
      CountMore([KeyDown(ShiftLeft)], body, p);
      CountMore([KeyDown(ShiftLeft)] + body, [KeyUp(ShiftLeft)], p);
    } else {
      assert Tap(k) == body;
    }
  }

  // ---------------------------------------------------------------- sessions

  function Flush(f: Field): Field {
    var g := f.(remote := ReceiveAll(f.remote, Script(f.prev, f.value)), prev := f.value);
    if |f.value| <= BUFFER_TRIM_AT then g
    else
      var cut := |f.value| - BUFFER_KEEP;
      g.(value := f.value[cut..], prev := f.value[cut..], history := f.history + f.value[..cut])
  }

  function Tapped(f: Field, code: Code): Field {
    f.(remote := ReceiveAll(f.remote, [KeyDown(code), KeyUp(code)]))
  }

  function Step(f: Field, e: Event): Field {
    match e
    case LineBreak => Tapped(f, Enter).(value := [], prev := [], history := f.history + f.prev + [NEWLINE])
    case DeleteBackward => if !f.composing && f.prev == [] then Tapped(f, Backspace).(history := Dropped(f.history, 1)) else f
    case DeleteForward => if !f.composing && f.prev == [] then Tapped(f, Delete) else f
    case Input(v) => if f.composing then f.(value := v) else Flush(f.(value := v))
    case CompositionStart => f.(composing := true)
    case CompositionEnd => Flush(f.(composing := false))
    case FocusChange => f.(value := [], prev := [], history := f.history + f.prev)
  }

  /** The remote text in front of the caret is the fixed history and then the mirrored
      value, and no modifier is stuck. */
  predicate Synced(f: Field) {
    !f.remote.shift && f.remote.left == f.history + f.prev
  }

  /** Outside a composition the mirrored value is the field's own. */
  predicate Settled(f: Field) {
    f.composing || f.value == f.prev
  }

  /** The characters an event makes a flush type. */
  function Added(f: Field, e: Event): Text {
    match e
    case Input(v) => if f.composing then [] else v[Common(f.prev, v)..]
    case CompositionEnd => f.value[Common(f.prev, f.value)..]
    case _ => []
  }

  /** A flush keeps the remote in step exactly when every added character has a key;
      trimming the front of the buffer changes nothing. */
  lemma FlushKeepsSync(f: Field)
    requires Synced(f)
    ensures var g, added := Flush(f), f.value[Common(f.prev, f.value)..];
            && !g.remote.shift && g.value == g.prev && g.remote.right == f.remote.right
            && g.history + g.value == f.history + f.value
            && (Synced(g) <==> AllTypable(added))
  {
    hide Common, Script, ReceiveAll, TypableOf, AllTypable;
    var g, c := Flush(f), Common(f.prev, f.value);
    var added := f.value[c..];
    ScriptMeans(f.remote, f.history, f.prev, f.value);
    TypableOfAll(added);
    var kept := f.history + f.value[..c];
    assert f.history + f.value == kept + added;
    assert g.remote.left == kept + TypableOf(added);
    if |f.value| > BUFFER_TRIM_AT {
      TrimKeepsText(f.history, f.value, |f.value| - BUFFER_KEEP);
    }
    SameBehind(kept, added, TypableOf(added));
  }

  lemma TrimKeepsText(history: Text, value: Text, cut: nat)
    requires cut <= |value|
    ensures (history + value[..cut]) + value[cut..] == history + value
  {
    assert value == value[..cut] + value[cut..];
  }

  lemma SameBehind(h: Text, a: Text, b: Text)
    ensures h + a == h + b <==> a == b
  {
    if a != b {
      assert (h + a)[|h|..] == a && (h + b)[|h|..] == b;
    }
  }

  lemma StepKeepsSync(f: Field, e: Event)
    requires Synced(f) && Settled(f)
    ensures var g, added := Step(f, e), Added(f, e);
            Settled(g) && !g.remote.shift && (Synced(g) <==> AllTypable(added))
  {
    assert AllTypable([]);
    hide Flush, ReceiveAll, AllTypable, Common;
    match e
    case LineBreak => TapOnce(f.remote, Enter);
    case DeleteBackward => TapOnce(f.remote, Backspace);
    case DeleteForward => TapOnce(f.remote, Delete);
    case Input(v) =>
      if !f.composing {
        var h := f.(value := v);
        assert Added(f, e) == h.value[Common(h.prev, h.value)..];
        FlushKeepsSync(h);
      }
    case CompositionEnd =>
      var h := f.(composing := false);
      assert Synced(h) && Step(f, e) == Flush(h) && Added(f, e) == h.value[Common(h.prev, h.value)..];
      FlushKeepsSync(h);
    case _ =>
  }

  // ---------------------------------------------------------------- on the remote alone

  /** A line break puts a newline at the remote caret, whatever the field holds and
      whatever was mirrored, and empties the field. */
  lemma LineBreakIsSent(f: Field)
    ensures var g := Step(f, LineBreak);
            g.remote == f.remote.(left := f.remote.left + [NEWLINE]) && g.value == [] && g.composing == f.composing
  {
    TapOnce(f.remote, Enter);
  }

  /** With nothing mirrored and no composition, a backward delete erases the unit before
      the remote caret, and a forward one the unit after it; otherwise neither reaches the
      remote, for the browser's own edit will. */
  lemma DeletesAreSentIff(f: Field)
    ensures var sent := !f.composing && f.prev == [];
            var back, forth := Step(f, DeleteBackward).remote, Step(f, DeleteForward).remote;
            && back == (if sent then f.remote.(left := Dropped(f.remote.left, 1)) else f.remote)
            && forth == (if sent && f.remote.right != [] then f.remote.(right := f.remote.right[1..]) else f.remote)
  {
    TapOnce(f.remote, Backspace);
    TapOnce(f.remote, Delete);
  }

  /** The text left of the remote caret once the mirrored value is replaced. */
  function Replaced(left: Text, mirrored: nat, value: Text): Text {
    Dropped(left, mirrored) + value
  }

  /** What each event does to the text before the remote caret, where all that is typed
      has a key: line breaks and deletes as above; outside a composition an input, and a
      composition's end, put the field's value in place of what was mirrored of it;
      nothing else is sent. */
  lemma StepMeans(f: Field, e: Event)
    requires Synced(f) && Settled(f) && AllTypable(Added(f, e))
    ensures var left, n := f.remote.left, |f.prev|;
            Step(f, e).remote.left ==
              match e
              case LineBreak => left + [NEWLINE]
              case DeleteBackward => if f.composing || n > 0 then left else Dropped(left, 1)
              case DeleteForward => left
              case Input(v) => if f.composing then left else Replaced(left, n, v)
              case CompositionStart => left
              case CompositionEnd => Replaced(left, n, f.value)
              case FocusChange => left
    ensures !e.DeleteForward? ==> Step(f, e).remote.right == f.remote.right
  {
    hide Flush, ReceiveAll, AllTypable, Common, Step;
    match e
    case LineBreak => LineBreakIsSent(f);
    case DeleteBackward => DeletesAreSentIff(f);
    case DeleteForward => DeletesAreSentIff(f);
    case Input(v) =>
      InputIsFlush(f, v);
      if !f.composing {
        FlushReplaces(f.(value := v));
      }
    case CompositionEnd =>
      EndIsFlush(f);
      FlushReplaces(f.(composing := false));
    case _ => NothingSent(f, e);
  }

  lemma InputIsFlush(f: Field, v: Text)
    ensures Step(f, Input(v)) == if f.composing then f.(value := v) else Flush(f.(value := v))
  {
  }

  lemma EndIsFlush(f: Field)
    ensures Step(f, CompositionEnd) == Flush(f.(composing := false))
  {
  }

  lemma NothingSent(f: Field, e: Event)
    requires e.CompositionStart? || e.FocusChange?
    ensures Step(f, e).remote == f.remote
  {
  }

  lemma FlushReplaces(f: Field)
    requires Synced(f) && AllTypable(f.value[Common(f.prev, f.value)..])
    ensures Flush(f).remote.left == Replaced(f.remote.left, |f.prev|, f.value) && Flush(f).remote.right == f.remote.right
  {
    hide Flush, ReceiveAll, AllTypable, Common;
    FlushKeepsSync(f);
    assert Dropped(f.remote.left, |f.prev|) == f.history;
  }

  /** What each event leaves in the field, and whether a composition is on. */
  lemma FieldFollows(f: Field, e: Event)
    ensures var g := Step(f, e);
            && g.composing == (e.CompositionStart? || (f.composing && !e.CompositionEnd?))
            && g.value == match e
               case LineBreak => []
               case FocusChange => []
               case Input(v) => if f.composing || |v| <= 64 then v else v[|v| - 16..]
               case CompositionEnd => if |f.value| <= 64 then f.value else f.value[|f.value| - 16..]
               case _ => f.value
  {
    hide ReceiveAll, Script;
  }

  /** A flush keeps a field of up to 64 units and cuts a longer one to its last 16. */
  lemma FlushTrims(f: Field)
    ensures Flush(f).value == if |f.value| <= 64 then f.value else f.value[|f.value| - 16..]
    ensures Flush(f).prev == Flush(f).value && |Flush(f).value| <= 64
  {
    hide ReceiveAll, Script;
  }

  ghost predicate Run(states: seq<Field>, events: seq<Event>) {
    && |states| == |events| + 1
    && forall i | 0 <= i < |events| :: states[i + 1] == Step(states[i], events[i])
  }

  /** Through autocorrect rewrites, compositions, trims, deletes, line breaks and focus
      changes: whenever the field is settled, the remote text is the history followed by
      the field's value, as long as everything typed had a key. */
  lemma {:induction false} RunKeepsSync(states: seq<Field>, events: seq<Event>, n: nat)
    requires Run(states, events) && n <= |events| && Synced(states[0]) && Settled(states[0])
    requires forall k | 0 <= k < n :: AllTypable(Added(states[k], events[k]))
    ensures Synced(states[n])
    ensures states[n].composing || states[n].remote.left == states[n].history + states[n].value
    ensures Settled(states[n])
  {
    hide Step, AllTypable, Added;
    if n > 0 {
      RunKeepsSync(states, events, n - 1);
      StepKeepsSync(states[n - 1], events[n - 1]);
    }
  }

  /** Units without a key are still counted by the diff: typing some after a text and
      taking them back erases as many units of that text on the remote side, one for
      most characters, two for an emoji. */
  lemma UnmappedEatsText(f: Field, extra: Text)
    requires Synced(f) && Settled(f) && !f.composing && |f.value| + |extra| <= BUFFER_TRIM_AT
    requires forall i | 0 <= i < |extra| :: !Typable(extra[i])
    ensures var g := Step(Step(f, Input(f.value + extra)), Input(f.value));
            g.value == f.value && g.history == f.history
            && g.remote.left == Dropped(f.remote.left, |extra|)
  {
    hide Typable, Common, Script;
    var text, longer := f.value, f.value + extra;
    var mid := Step(f, Input(longer));
    CommonIs(text, longer, |text|);
    CommonIs(longer, text, |text|);
    ScriptMeans(f.remote, f.history, text, longer);
    assert longer[|text|..] == extra && longer[..|text|] == text;
    OnlyUntypable(extra);
    assert mid.remote.left == f.remote.left;
    ScriptEffect(mid.remote, longer, text);
    assert text[|text|..] == [];
  }

  lemma {:induction false} OnlyUntypable(text: Text)
    requires forall i | 0 <= i < |text| :: !Typable(text[i])
    ensures TypableOf(text) == []
  {
    hide Typable;
    if text != [] {
      assert forall i | 0 <= i < |text[1..]| :: text[1..][i] == text[i + 1];
      OnlyUntypable(text[1..]);
    }
  }

  lemma TapAfter(ms: seq<Message>, code: Code)
    requires Down(ms) == {}
    ensures Down(ms + [KeyDown(code), KeyUp(code)]) == {}
  {
    DownMore(ms, [KeyDown(code), KeyUp(code)]);
    TapReleases(KeyStroke(code, false));
  }

  // ---------------------------------------------------------------- the event handlers

  class AttachedKeyboard {
    /** The hidden field's value, which the browser edits between events. */
    var value: Text
    var prev: Text
    var composing: bool
    var sent: seq<Message>
    const start: Remote
    ghost var history: Text

    ghost function Model(): Field
      reads this
    {
      Field(value, prev, composing, ReceiveAll(start, sent), history)
    }

    /** Every key pressed was released. */
    ghost predicate AllUp()
      reads this
    {
      Down(sent) == {}
    }

    constructor (start: Remote)
      requires !start.shift
      ensures AllUp()
      ensures Model() == Field([], [], false, start, start.left) && Synced(Model()) && Settled(Model())
    {
      this.start := start;
      value, prev, composing, sent, history := [], [], false, [], start.left;
    }

    method SendChar(stroke: KeyStroke)
      modifies this`sent
      ensures sent == old(sent) + Tap(stroke)
    {
      if stroke.shift {
        sent := sent + [KeyDown(ShiftLeft)];
      }
      sent := sent + [KeyDown(stroke.code)];
      sent := sent + [KeyUp(stroke.code)];
      if stroke.shift {
        sent := sent + [KeyUp(ShiftLeft)];
      }
    }

    method SendKey(code: Code)
      modifies this`sent
      ensures sent == old(sent) + [KeyDown(code), KeyUp(code)]
    {
      sent := sent + [KeyDown(code)];
      sent := sent + [KeyUp(code)];
    }

    method TypeText(text: Text)
      modifies this`sent
      ensures sent == old(sent) + Typed(text)
    {
      hide Stroke, Tap;
      for i := 0 to |text|
        invariant sent == old(sent) + Typed(text[..i])
      {
        assert text[..i + 1][..i] == text[..i];
        var stroke := Stroke(text[i]);
        if stroke.Some? {
          SendChar(stroke.value);
        }
      }
      assert text[..|text|] == text;
    }

    method FlushValue()
      modifies this
      ensures Model() == Flush(old(Model())) && sent == old(sent) + Script(old(prev), old(value))
      ensures old(AllUp()) ==> AllUp()
    {
      hide Down, Typed, Stroke, ReceiveAll, Common;
      var cur := value;
      var common := CommonPrefix(prev, cur);
      for i := 0 to |prev| - common
        modifies this`sent
        invariant sent == old(sent) + Taps(Backspace, i)
      {
        SendKey(Backspace);
      }
      TypeText(cur[common..]);
      assert sent == old(sent) + Script(prev, cur);
      ReceiveMore(start, old(sent), Script(prev, cur));
      if old(AllUp()) {
        ScriptAfter(old(sent), prev, cur);
      }
      prev := cur;
      if |cur| > BUFFER_TRIM_AT {
        var keep := cur[|cur| - BUFFER_KEEP..];
        value := keep;
        prev := keep;
        history := history + cur[..|cur| - BUFFER_KEEP];
      }
    }

    method Reset()
      modifies this
      ensures value == [] && prev == [] && sent == old(sent) && composing == old(composing)
      ensures history == old(history) + old(prev)
    {
      history := history + prev;
      value := [];
      prev := [];
    }

    /** `beforeinput`: line breaks become Enter, deletes that cannot shrink the field
        become a key; the browser's own edit is prevented then. */
    method OnBeforeInput(e: Event) returns (prevented: bool)
      modifies this
      ensures old(AllUp()) ==> AllUp()
      ensures Model() == if e.LineBreak? || e.DeleteBackward? || e.DeleteForward? then Step(old(Model()), e) else old(Model())
      ensures sent == old(sent) +
                if e.LineBreak? then [KeyDown(Enter), KeyUp(Enter)]
                else if old(composing) || old(prev) != [] then []
                else if e.DeleteBackward? then [KeyDown(Backspace), KeyUp(Backspace)]
                else if e.DeleteForward? then [KeyDown(Delete), KeyUp(Delete)]
                else []
      ensures prevented <==> e.LineBreak? || ((e.DeleteBackward? || e.DeleteForward?) && !old(composing) && old(prev) == [])
    {
      hide ReceiveAll, Down;
      prevented := false;
      if AllUp() {
        TapAfter(sent, Enter);
        TapAfter(sent, Backspace);
        TapAfter(sent, Delete);
      }
      match e {
        case LineBreak =>
          prevented := true;
          ReceiveMore(start, sent, [KeyDown(Enter), KeyUp(Enter)]);
          SendKey(Enter);
          Reset();
          history := history + [NEWLINE];
        case DeleteBackward =>
          if !composing && |prev| == 0 {
            prevented := true;
            ReceiveMore(start, sent, [KeyDown(Backspace), KeyUp(Backspace)]);
            SendKey(Backspace);
            history := Dropped(history, 1);
          }
        case DeleteForward =>
          if !composing && |prev| == 0 {
            prevented := true;
            ReceiveMore(start, sent, [KeyDown(Delete), KeyUp(Delete)]);
            SendKey(Delete);
          }
        case _ =>
      }
    }

    /** `input`: the browser has just set the field's value. */
    method OnInput(edited: Text)
      modifies this
      ensures Model() == Step(old(Model()), Input(edited)) && (old(AllUp()) ==> AllUp())
    {
      value := edited;
      if composing {
        return;
      }
      FlushValue();
    }

    method OnCompositionStart()
      modifies this
      ensures Model() == Step(old(Model()), CompositionStart)
    {
      composing := true;
    }

    method OnCompositionEnd()
      modifies this
      ensures Model() == Step(old(Model()), CompositionEnd) && (old(AllUp()) ==> AllUp())
    {
      composing := false;
      FlushValue();
    }

    /** Both gaining and losing focus start from a clean slate. */
    method OnFocusChange()
      modifies this
      ensures Model() == Step(old(Model()), FocusChange)
    {
      Reset();
    }
  }
}
