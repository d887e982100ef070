/**
 * The part of Android's `Message` that the binding uses: the `what` code, the
 * first integer argument and the `replyTo` messenger. Kotlin's `Int` is a
 * 32-bit signed integer; messengers are identified by an opaque number.
 */
module Messages {
  import opened Wrappers

  newtype int32 = x: int | -0x8000_0000 <= x < 0x8000_0000

  type MessengerId = nat

  /** A message as `Message.obtain()` fills it: integer fields default to 0, `replyTo` to null. */
  datatype Message = Message(what: int32, arg1: int32, replyTo: Option<MessengerId>, isAsynchronous: bool)
}
