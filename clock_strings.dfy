/**
 * The "HH:mm" strings `toTimeString().slice(0, 5)` produces, and JavaScript's
 * `<=` on strings, which compares character by character.
 */
module ClockStrings {

  /** The decimal digit `n` as a character. */
  function Digit(n: int): char
    requires 0 <= n < 10
  {
    (48 + n) as char
  }

  /** The zero-padded "HH:mm" text of a minute of the day. */
  function FormatHHmm(minute: int): (s: string)
    requires 0 <= minute < 1440
    ensures |s| == 5 && s[2] == ':'
    ensures '0' <= s[0] <= '9' && '0' <= s[1] <= '9' && '0' <= s[3] <= '9' && '0' <= s[4] <= '9'
    ensures (s[0] as int - 48) * 10 + (s[1] as int - 48) == minute / 60
    ensures (s[3] as int - 48) * 10 + (s[4] as int - 48) == minute % 60
  {
    var h := minute / 60;
    var m := minute % 60;
    [Digit(h / 10), Digit(h % 10), ':', Digit(m / 10), Digit(m % 10)]
  }

  /**
   * `a <= b` on JavaScript strings: the first differing character decides,
   * and a prefix comes first.
   */
  predicate LexLe(a: string, b: string)
  {
    if |a| == 0 then true
    else if |b| == 0 then false
    else if a[0] != b[0] then a[0] < b[0]
    else LexLe(a[1..], b[1..])
  }

  /** Comparing two equally long digit strings, one character at a time. */
  lemma LexLeFive(a: string, b: string)
    requires |a| == 5 && |b| == 5
    ensures LexLe(a, b) <==>
              a[0] < b[0] || (a[0] == b[0] &&
              (a[1] < b[1] || (a[1] == b[1] &&
              (a[2] < b[2] || (a[2] == b[2] &&
              (a[3] < b[3] || (a[3] == b[3] && a[4] <= b[4])))))))
  {
    var a1, b1 := a[1..], b[1..];
    var a2, b2 := a1[1..], b1[1..];
    var a3, b3 := a2[1..], b2[1..];
    var a4, b4 := a3[1..], b3[1..];
    assert LexLe(a4, b4) <==> a[4] <= b[4] by {
      assert a4[1..] == [] && a4[0] == a[4] && b4[0] == b[4];
    }
    assert LexLe(a3, b3) <==> a3[0] < b3[0] || (a3[0] == b3[0] && LexLe(a4, b4));
    assert LexLe(a2, b2) <==> a2[0] < b2[0] || (a2[0] == b2[0] && LexLe(a3, b3));
    assert LexLe(a1, b1) <==> a1[0] < b1[0] || (a1[0] == b1[0] && LexLe(a2, b2));
    assert LexLe(a, b) <==> a[0] < b[0] || (a[0] == b[0] && LexLe(a1, b1));
    assert a3[0] == a[3] && b3[0] == b[3] && a2[0] == a[2] && b2[0] == b[2];
    assert a1[0] == a[1] && b1[0] == b[1];
  }

  /** On "HH:mm" texts, string `<=` is the order of the minutes they show. */
  lemma FormatOrder(x: int, y: int)
    requires 0 <= x < 1440 && 0 <= y < 1440
    ensures LexLe(FormatHHmm(x), FormatHHmm(y)) <==> x <= y
  {
    LexLeFive(FormatHHmm(x), FormatHHmm(y));
  }
}
