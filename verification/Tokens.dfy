/** The special tokens of the chat format. */
module Tokens {
  const BOS := "<\U{FF5C}begin\U{2581}of\U{2581}sentence\U{FF5C}>"
  const EOS := "<\U{FF5C}end\U{2581}of\U{2581}sentence\U{FF5C}>"
  const THINK_START := "<think>"
  const THINK_END := "</think>"
  const DSML := "\U{FF5C}DSML\U{FF5C}"
  const TOOL_CALLS_START := "\n\n<\U{FF5C}DSML\U{FF5C}tool_calls"
}
