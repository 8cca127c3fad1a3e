/** C strings as the source handles them (`strlen`, `strcpy`, `strcat`):
    a run of bytes ended by the first NUL. As a Dafny `string`, that is a
    sequence in which every character is one non-NUL byte. */
module CStrings {

  /** `s` is the text of some C string: every character is one non-NUL byte. */
  predicate IsText(s: string) {
    forall i :: 0 <= i < |s| ==> 0 < s[i] as int < 0x100
  }
}
