/**
 * The typed storage errors of internal/db/errors.go. Go's `error` interface is any value with an
 * `Error()` text; the two kinds the store defines are told apart by their type, never by text.
 */
module Errors {

  /** An error a store operation can return: one of the two kinds, or any other error value. */
  datatype DbError = ErrMsgNotFound | ErrIdUnavailable | Other(text: string) {

    /** The text `Error()` gives. */
    function Error(): string {
      match this
      case ErrMsgNotFound => "There was no message associated with the ID provided"
      case ErrIdUnavailable => "The ID  provided is already in use"
      case Other(text) => text
    }
  }

  /** The type test `err.(ErrMsgNotFound)`. */
  predicate IsErrMsgNotFound(err: DbError) {
    err.ErrMsgNotFound?
  }

  /** The type test `err.(ErrIdUnavailable)`. */
  predicate IsErrIdUnavailable(err: DbError) {
    err.ErrIdUnavailable?
  }

  /**
   * Each predicate recognises exactly its own kind, the kinds are disjoint, and an error of any
   * other type is recognised by neither, even when its text copies a typed error's text.
   */
  lemma KindsAreDisjoint(err: DbError)
    ensures IsErrMsgNotFound(err) <==> err == ErrMsgNotFound
    ensures IsErrIdUnavailable(err) <==> err == ErrIdUnavailable
    ensures !(IsErrMsgNotFound(err) && IsErrIdUnavailable(err))
    ensures err.Other? ==> !IsErrMsgNotFound(err) && !IsErrIdUnavailable(err)
  {
  }

  /** Each kind has its own fixed text. */
  lemma FixedTexts()
    ensures ErrMsgNotFound.Error() == "There was no message associated with the ID provided"
    ensures ErrIdUnavailable.Error() == "The ID  provided is already in use"
    ensures ErrMsgNotFound.Error() != ErrIdUnavailable.Error()
    ensures !IsErrMsgNotFound(Other(ErrMsgNotFound.Error()))
    ensures !IsErrIdUnavailable(Other(ErrIdUnavailable.Error()))
  {
  }
}
