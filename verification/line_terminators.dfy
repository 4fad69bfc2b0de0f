/**
 The characters JavaScript's regular-expression `.` refuses to match when the
 `s` flag is absent, shared by the URL gate and the `Content-Disposition`
 pattern.
 */
module LineTerminators {

  /** `\n`, `\r`, LINE SEPARATOR and PARAGRAPH SEPARATOR. */
  predicate IsLineTerminator(c: char) {
    c == '\n' || c == '\r' || c == '\U{2028}' || c == '\U{2029}'
  }

  /** No line of `s` is broken: `.` can match every character. */
  predicate SingleLine(s: string) {
    forall m :: 0 <= m < |s| ==> !IsLineTerminator(s[m])
  }
}
