/** The page's keyboard shortcuts: which command a key press selects. */
module Keyboard {
  import opened JsNumbers

  /** What a key press asks for. `ClickTask` carries the task position as the script
      computes it (`parseInt(key) - 1`), which may fall outside the list. */
  datatype Command = NoCommand | CompleteFirst | ResetAll | ShareProgress | ClickTask(index: Num)

  /** JavaScript's `a <= b` on strings: character order, a prefix before its extensions. */
  predicate LexLe(a: string, b: string)
    decreases |a|
  {
    a == [] || (b != [] && (a[0] < b[0] || (a[0] == b[0] && LexLe(a[1..], b[1..]))))
  }

  function Minus1(n: Num): (r: Num)
    ensures r.Int? <==> n.Int?
    ensures r.Int? ==> r.value == n.value - 1
  {
    match n
    case NaN => NaN
    case Int(v) => Int(v - 1)
  }

  /** The `keydown` listener's choice. Nothing happens while typing in a text field; space
      and Enter complete the first open task; r and s (either case) reset and share; a key
      between "1" and "5" in string order clicks the task at its number minus one. The
      script tests these one after another; at most one can hold (`KeyTestsExclusive`). */
  function KeyCommand(key: string, inField: bool): Command {
    if inField then NoCommand
    else if key == " " || key == "Enter" then CompleteFirst
    else if key == "r" || key == "R" then ResetAll
    else if key == "s" || key == "S" then ShareProgress
    else if LexLe("1", key) && LexLe(key, "5") then ClickTask(Minus1(ParseInt(key)))
    else NoCommand
  }

  /** The key tests of the listener exclude one another, so testing them in sequence and
      stopping at the first match selects the same command. */
  lemma KeyTestsExclusive(key: string)
    ensures LexLe("1", key) && LexLe(key, "5") ==> key != " " && key != "Enter" && key != "r" && key != "R" && key != "s" && key != "S"
    ensures LexLe("1", key) && LexLe(key, "5") ==> '1' <= key[0] <= '5'
  {
    if LexLe("1", key) && LexLe(key, "5") {
      assert key != [];
      assert key[0] >= '1';
      assert key[0] <= '5';
    }
  }

  /** The digit keys 1 to 5 select the first five tasks, in order. */
  lemma DigitKeySelectsTask(d: nat)
    requires 1 <= d <= 5
    ensures KeyCommand([DigitChar(d)], false) == ClickTask(Int(d - 1))
  {
    var key := [DigitChar(d)];
    assert ToString(Int(d)) == key by {
      assert NatToString(d) == key;
    }
    assert ParseInt(key) == Int(d) by {
      ParseIntOfToString(Int(d));
    }
    assert LexLe("1", key) by {
      assert "1"[0] <= key[0];
      assert key[0] == '1' ==> LexLe("1"[1..], key[1..]);
    }
    assert LexLe(key, "5") by {
      assert key[0] <= "5"[0];
      assert key[0] == '5' ==> LexLe(key[1..], "5"[1..]);
    }
    assert key != " " && key != "Enter";
    assert key != "r" && key != "R" && key != "s" && key != "S";
  }

  /** Keys outside the five digits, such as "6" or "0", select nothing. */
  lemma OtherDigitsSelectNothing(d: nat)
    requires d == 0 || 6 <= d <= 9
    ensures KeyCommand([DigitChar(d)], false) == NoCommand
  {
  }
}
