/** Result and error types shared by every module of the model. */
module Results {

  /** A value, or the error the source raises instead of returning it. */
  datatype Result<+T, +E> = Ok(value: T) | Err(error: E)

  /** Success without a value, or the error raised. */
  datatype Outcome<+E> = Pass | Fail(error: E)

  /** Python's `Optional`: a value or `None`. */
  datatype Option<+T> = None | Some(value: T)

  /** The two Python exceptions the string-level parser, the runner and the colour
      builders raise: a `ValueError` with its message, and the `IndexError` of
      indexing one past the end of a string or list. */
  datatype PyError = ValueError(message: string) | IndexError
}

/** The character classes of helpers/parsing/lexer.py, also used by the word grammar. */
module Characters {

  /** Only the space character separates words; tabs are ordinary characters. */
  predicate IsWhitespace(c: char) {
    c == ' '
  }

  /** The one character reserved as a command separator. */
  predicate IsSpecial(c: char) {
    c in [';']
  }

  /** A space and a `;` each end a word, and neither is one of the characters that
      open an escape, a reference, a group or a comment. */
  lemma CharacterClasses(c: char)
    ensures IsWhitespace(c) <==> c == ' '
    ensures IsSpecial(c) <==> c == ';'
    ensures !(IsWhitespace(c) && IsSpecial(c))
    ensures IsWhitespace(c) || IsSpecial(c) ==> c !in ['\\', '$', '"', '#']
  {
  }
}
