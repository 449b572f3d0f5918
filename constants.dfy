/** lib/const.js. */
module Constants {
  /** Only this many leading bytes are decoded for text sniffing. */
  const BUFFER_CHECK_SIZE: nat := 100

  /** The answer when no text pattern matches. */
  const DEFAULT_FILE_TYPE: string := "txt"
}
