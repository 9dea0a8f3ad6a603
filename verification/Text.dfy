/** String operations that several parts of the program use. */
module Text {

  function Replace(text: string, old_: char, new_: char): (r: string)
    ensures |r| == |text|
    ensures forall i :: 0 <= i < |r| ==> r[i] == if text[i] == old_ then new_ else text[i]
  {
    seq(|text|, i requires 0 <= i < |text| => if text[i] == old_ then new_ else text[i])
  }

  function RightStrip(text: string, c: char): string {
    if text != "" && text[|text| - 1] == c then RightStrip(text[..|text| - 1], c) else text
  }

  predicate IsSpace(c: char) {
    c == ' ' || '\t' <= c <= '\r'
  }
}
