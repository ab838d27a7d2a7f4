/** ASCII letters and digits, and the search for a substring. */
module Characters {
  predicate IsUpper(c: char) {
    'A' <= c <= 'Z'
  }

  predicate IsLower(c: char) {
    'a' <= c <= 'z'
  }

  predicate IsDigit(c: char) {
    '0' <= c <= '9'
  }

  function ToLower(c: char): char {
    if IsUpper(c) then (c as int + 32) as char else c
  }

  function ToUpper(c: char): char {
    if IsLower(c) then (c as int - 32) as char else c
  }

  predicate OccursAt(text: string, part: string, i: int) {
    0 <= i <= |text| - |part| && text[i..i + |part|] == part
  }

  /** `text.includes(part)`. */
  predicate Contains(text: string, part: string) {
    exists i | 0 <= i <= |text| :: OccursAt(text, part, i)
  }

  /** The characters of `s` that are not in `dropped`. */
  function Strip(s: string, dropped: string): string {
    if s == "" then "" else (if s[0] in dropped then "" else [s[0]]) + Strip(s[1..], dropped)
  }

  lemma {:induction false} StripAppend(a: string, b: string, dropped: string)
    ensures Strip(a + b, dropped) == Strip(a, dropped) + Strip(b, dropped)
  {
    if a == "" {
      assert a + b == b;
    } else {
      assert (a + b)[1..] == a[1..] + b;
      StripAppend(a[1..], b, dropped);
    }
  }
}
