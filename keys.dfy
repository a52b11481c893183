/**
 * The pure part of the keyboard handlers: which command a `KeyboardEvent.key` value gives.
 * The handlers test `key >= '0' && key <= '9'` with JavaScript's string comparison.
 */
module Keys {
  /** JavaScript's `a <= b` on strings: lexicographic order of the character codes. */
  predicate StrLe(a: string, b: string)
    decreases |a|
  {
    |a| == 0 || (|b| > 0 && (a[0] < b[0] || (a[0] == b[0] && StrLe(a[1..], b[1..]))))
  }

  predicate IsDigit(c: char)
  {
    '0' <= c <= '9'
  }

  /** The longest prefix of `s` made of decimal digits. */
  function LeadingDigits(s: string): (d: string)
    ensures |d| <= |s| && d == s[..|d|]
    ensures forall i :: 0 <= i < |d| ==> IsDigit(d[i])
    ensures |d| < |s| ==> !IsDigit(s[|d|])
  {
    if |s| > 0 && IsDigit(s[0]) then [s[0]] + LeadingDigits(s[1..]) else []
  }

  /** The value of a string of decimal digits. */
  function DecimalValue(d: string): nat
    requires forall i :: 0 <= i < |d| ==> IsDigit(d[i])
  {
    if |d| == 0 then 0
    else
      var last := d[|d| - 1];
      assert IsDigit(last);
      DecimalValue(d[..|d| - 1]) * 10 + ((last as int) - ('0' as int))
  }

  /** parseInt(key) for a key that starts with a digit: the value of its leading digits. */
  function ParseLeadingInt(key: string): nat
  {
    DecimalValue(LeadingDigits(key))
  }

  /** What a key press asks the game to do. */
  datatype KeyCommand = TapNumber(n: int) | TapExpected | GoToMenu | NoCommand

  /** `key >= '0' && key <= '9'`. */
  predicate IsDigitKey(key: string)
  {
    StrLe("0", key) && StrLe(key, "9")
  }

  /**
   * The string test admits exactly the keys that start with a digit, except that after a
   * leading '9' nothing may follow ("9" < "95" in string order).
   */
  lemma {:induction false} DigitKeyShape(key: string)
    ensures IsDigitKey(key) <==> |key| > 0 && IsDigit(key[0]) && (key[0] == '9' ==> |key| == 1)
  {
    if |key| > 0 {
      var zero, nine: string := "0", "9";
      assert zero[1..] == [] && nine[1..] == [];
      assert StrLe(zero, key) <==> '0' <= key[0];
      assert StrLe(key, nine) <==> key[0] < '9' || (key[0] == '9' && StrLe(key[1..], nine[1..]));
      assert StrLe(key[1..], nine[1..]) <==> |key| == 1;
    }
  }

  /** The dispatch of page.tsx's keydown handler. */
  function PageKeyCommand(key: string): KeyCommand
  {
    if IsDigitKey(key) then TapNumber(ParseLeadingInt(key))
    else if key == "Enter" || key == " " then TapExpected
    else if key == "Escape" then GoToMenu
    else NoCommand
  }

  /**
   * The dispatch of script.js's keydown handler. Its Escape test reads `key` outside the block
   * that declares it and throws, so Escape never returns to the menu there.
   */
  function ScriptKeyCommand(key: string): KeyCommand
  {
    if IsDigitKey(key) then TapNumber(ParseLeadingInt(key))
    else if key == "Enter" || key == " " then TapExpected
    else NoCommand
  }

  /** A one-character key taps its digit when it is a digit and never taps a number otherwise. */
  lemma {:induction false} SingleKeyCommand(c: char)
    ensures PageKeyCommand([c]).TapNumber? <==> IsDigit(c)
    ensures ScriptKeyCommand([c]).TapNumber? <==> IsDigit(c)
    ensures IsDigit(c) ==> PageKeyCommand([c]) == ScriptKeyCommand([c]) == TapNumber((c as int) - ('0' as int))
  {
    DigitKeyShape([c]);
    if IsDigit(c) {
      assert LeadingDigits([c]) == [c] by {
        assert LeadingDigits([c][1..]) == [];
      }
      assert DecimalValue([c]) == (c as int) - ('0' as int) by {
        assert [c][..0] == [];
      }
    }
  }

  /** Named keys such as "Enter", "Escape" or "ArrowUp" start with a letter and tap no number. */
  lemma {:induction false} NamedKeysAreNotDigits(key: string)
    requires |key| > 0 && !IsDigit(key[0])
    ensures !PageKeyCommand(key).TapNumber? && !ScriptKeyCommand(key).TapNumber?
  {
    DigitKeyShape(key);
  }

  /** The two handlers differ only on Escape. */
  lemma {:induction false} HandlersAgreeBesidesEscape(key: string)
    ensures key != "Escape" ==> PageKeyCommand(key) == ScriptKeyCommand(key)
    ensures PageKeyCommand("Escape") == GoToMenu && ScriptKeyCommand("Escape") == NoCommand
  {
    DigitKeyShape("Escape");
  }
}
