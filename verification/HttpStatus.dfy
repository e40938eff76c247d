/** The results a handler can return besides a response's own status. */
module HttpStatus {
  const OK := 0
  const SERVER_ERROR := 500
}
