/** Characters, the US-layout key presses that produce them, and what a text field on
    the far side makes of a sequence of key messages. */
module UsLayout {
  import opened Options

  /** Text as the browser counts it: UTF-16 code units. */
  type Unit = u: nat | u < 0x1_0000
  type Text = seq<Unit>

  const NEWLINE: Unit := 10

  /** A physical key. Letters, digits and symbols carry the character on the key cap. */
  datatype Code = Key(cap: char) | Digit(cap: char) | Symbol(cap: char) | Space | Tab
                | ShiftLeft | Backspace | Enter | Delete

  datatype KeyStroke = KeyStroke(code: Code, shift: bool)

  datatype Message = KeyDown(code: Code) | KeyUp(code: Code)

  const DIGITS := "1234567890"
  const DIGITS_SHIFTED := "!@#$%^&*()"
  const SYMBOLS := "`-=[]\\;',./"
  const SYMBOLS_SHIFTED := "~_+{}|:\"<>?"

  /** First position of `c` in `s`. */
  function Find(s: string, c: char): (at: Option<nat>)
    ensures at.Some? ==> at.value < |s| && s[at.value] == c
    ensures at.None? <==> c !in s
  {
    if s == [] then None
    else if s[0] == c then Some(0)
    else match Find(s[1..], c)
      case Some(i) => Some(i + 1)
      case None => None
  }

  /** The key press for a code unit, if the layout has one; half of a surrogate pair
      has none, nor has the pair. */
  function Stroke(u: Unit): Option<KeyStroke> {
    if u < 128 then CharStroke(u as char) else None
  }

  function CharStroke(c: char): Option<KeyStroke> {
    if 'a' <= c <= 'z' then Some(KeyStroke(Key(c - 'a' + 'A'), false))
    else if 'A' <= c <= 'Z' then Some(KeyStroke(Key(c), true))
    else if c in DIGITS then Some(KeyStroke(Digit(c), false))
    else if c in SYMBOLS then Some(KeyStroke(Symbol(c), false))
    else if c == ' ' then Some(KeyStroke(Space, false))
    else if c == '\t' then Some(KeyStroke(Tab, false))
    else match Find(DIGITS_SHIFTED, c)
      case Some(i) => Some(KeyStroke(Digit(DIGITS[i]), true))
      case None => match Find(SYMBOLS_SHIFTED, c)
        case Some(i) => Some(KeyStroke(Symbol(SYMBOLS[i]), true))
        case None => None
  }

  predicate Typable(u: Unit) { Stroke(u).Some? }

  /** The units of a text that have a key. */
  function TypableOf(text: Text): (kept: Text) {
    if text == [] then [] else (if Typable(text[0]) then [text[0]] else []) + TypableOf(text[1..])
  }

  // ---------------------------------------------------------------- the far side

  /** A text field with its caret, and whether Shift is down. */
  datatype Remote = Remote(left: Text, right: Text, shift: bool)

  /** The US keymap: the character a key produces, always an ASCII one. */
  function Produces(code: Code, shift: bool): Option<char> {
    match code
    case Key(cap) => if 'A' <= cap <= 'Z' then Some(if shift then cap else cap - 'A' + 'a') else None
    case Digit(cap) => Shifted(DIGITS, DIGITS_SHIFTED, cap, shift)
    case Symbol(cap) => Shifted(SYMBOLS, SYMBOLS_SHIFTED, cap, shift)
    case Space => Some(' ')
    case Tab => Some('\t')
    case _ => None
  }

  function Shifted(plain: string, shifted: string, cap: char, shift: bool): Option<char>
    requires |plain| == |shifted|
  {
    match Find(plain, cap)
    case Some(i) => Some(if shift then shifted[i] else cap)
    case None => None
  }

  function Press(r: Remote, code: Code): Remote {
    match code
    case ShiftLeft => r.(shift := true)
    case Backspace => if r.left == [] then r else r.(left := r.left[..|r.left| - 1])
    case Delete => if r.right == [] then r else r.(right := r.right[1..])
    case Enter => r.(left := r.left + [NEWLINE])
    case _ => match Produces(code, r.shift)
      case Some(c) => if c < '\U{80}' then r.(left := r.left + [c as int]) else r
      case None => r
  }

  function Receive(r: Remote, m: Message): Remote {
    match m
    case KeyDown(code) => Press(r, code)
    case KeyUp(code) => if code == ShiftLeft then r.(shift := false) else r
  }

  function ReceiveAll(r: Remote, ms: seq<Message>): Remote {
    if ms == [] then r else Receive(ReceiveAll(r, ms[..|ms| - 1]), ms[|ms| - 1])
  }

  lemma {:induction false} ReceiveMore(r: Remote, a: seq<Message>, b: seq<Message>)
    ensures ReceiveAll(r, a + b) == ReceiveAll(ReceiveAll(r, a), b)
  {
    if b == [] {
      assert a + b == a;
    } else {
      assert (a + b)[..|a + b| - 1] == a + b[..|b| - 1];
      ReceiveMore(r, a, b[..|b| - 1]);
    }
  }

  /** The keys that are down after some messages. */
  function Down(ms: seq<Message>): set<Code> {
    if ms == [] then {}
    else match ms[|ms| - 1]
      case KeyDown(code) => Down(ms[..|ms| - 1]) + {code}
      case KeyUp(code) => Down(ms[..|ms| - 1]) - {code}
  }

  /** Messages after which every key is up again lead on from where one started. */
  lemma {:induction false} DownMore(a: seq<Message>, b: seq<Message>)
    requires Down(a) == {}
    ensures Down(a + b) == Down(b)
  {
    if b == [] {
      assert a + b == a;
    } else {
      assert (a + b)[..|a + b| - 1] == a + b[..|b| - 1];
      DownMore(a, b[..|b| - 1]);
    }
  }

  lemma {:induction false} FindIn(s: string, i: nat)
    requires i < |s| && forall j, k | 0 <= j < k < |s| :: s[j] != s[k]
    ensures Find(s, s[i]) == Some(i)
  {
    if i > 0 {
      assert s[i] == s[1..][i - 1] && s[0] != s[i];
      FindIn(s[1..], i - 1);
    }
  }

  ghost predicate Distinct(s: string) {
    forall j, k | 0 <= j < k < |s| :: s[j] != s[k]
  }

  lemma CapsAreDistinct()
    ensures Distinct(DIGITS) && Distinct(SYMBOLS)
  {
  }

  /** The key that bears a shifted symbol gives it back. */
  lemma ShiftedBack(plain: string, shifted: string, c: char)
    requires |plain| == |shifted| && Distinct(plain) && c in shifted
    ensures Find(shifted, c).Some? && Shifted(plain, shifted, plain[Find(shifted, c).value], true) == Some(c)
  {
    FindIn(plain, Find(shifted, c).value);
  }

  /** The table and the keymap are inverse: the key press looked up for a character
      produces that character. */
  lemma StrokeProduces(u: Unit)
    requires Typable(u)
    ensures u < 128
    ensures var k := Stroke(u).value; Produces(k.code, k.shift) == Some(u as char)
  {
    hide Find, Distinct;
    CapsAreDistinct();
    var c := u as char;
    if c in DIGITS_SHIFTED {
      ShiftedBack(DIGITS, DIGITS_SHIFTED, c);
    } else if c in SYMBOLS_SHIFTED {
      ShiftedBack(SYMBOLS, SYMBOLS_SHIFTED, c);
    }
  }

  lemma StrokeIsPlain(u: Unit)
    requires Typable(u)
    ensures var k := Stroke(u).value.code; k != ShiftLeft && k != Backspace && k != Enter && k != Delete
  {
    hide Find;
  }

  /** Every printable ASCII character and Tab has a key, and nothing else has. */
  lemma TypableIsAscii(u: Unit)
    ensures Typable(u) <==> 32 <= u <= 126 || u == 9
  {
    if u < 128 {
      CharTypableIsAscii(u as char);
    }
  }

  lemma CharTypableIsAscii(c: char)
    ensures CharStroke(c).Some? <==> ' ' <= c <= '~' || c == '\t'
  {
    hide Find;
  }

  /** A Shift-wrapped tap types its character and leaves Shift up. */
  function Tap(k: KeyStroke): seq<Message> {
    (if k.shift then [KeyDown(ShiftLeft)] else []) + [KeyDown(k.code), KeyUp(k.code)]
    + (if k.shift then [KeyUp(ShiftLeft)] else [])
  }

  lemma TapReleases(k: KeyStroke)
    ensures Down(Tap(k)) == {} && Down([KeyDown(k.code), KeyUp(k.code)]) == {}
  {
    var pair := [KeyDown(k.code), KeyUp(k.code)];
    assert pair[..1] == [KeyDown(k.code)] && pair[..1][..0] == [];
    assert Down(pair[..1]) == {k.code} && Down(pair) == {};
    if k.shift {
      var ms := [KeyDown(ShiftLeft), KeyDown(k.code), KeyUp(k.code), KeyUp(ShiftLeft)];
      assert Tap(k) == ms && ms[..3][..2] == ms[..2] && ms[..2][..1] == ms[..1] && ms[..1] == [KeyDown(ShiftLeft)];
      assert Down(ms[..1]) == {ShiftLeft} && Down(ms[..2]) == {ShiftLeft, k.code};
      assert Down(ms[..3]) == {ShiftLeft} - {k.code};
    } else {
      assert Tap(k) == pair;
    }
  }

  lemma TapTypes(r: Remote, u: Unit)
    requires Typable(u) && !r.shift
    ensures ReceiveAll(r, Tap(Stroke(u).value)) == r.(left := r.left + [u])
  {
    StrokeProduces(u);
    StrokeIsPlain(u);
    var k := Stroke(u).value;
    hide Stroke, Produces;
    if k.shift {
      var ms := [KeyDown(ShiftLeft), KeyDown(k.code), KeyUp(k.code), KeyUp(ShiftLeft)];
      assert Tap(k) == ms && ms[..3][..2][..1] == [KeyDown(ShiftLeft)] && ms[..3][..2] == ms[..2];
      assert ReceiveAll(r, ms[..1]) == r.(shift := true);
      assert ms[..2][..1] == ms[..1];
      assert ReceiveAll(r, ms[..2]) == r.(shift := true, left := r.left + [u]);
    } else {
      var ms := [KeyDown(k.code), KeyUp(k.code)];
      assert Tap(k) == ms && ms[..1] == [KeyDown(k.code)];
      assert ReceiveAll(r, ms[..1]) == r.(left := r.left + [u]);
    }
  }
}
