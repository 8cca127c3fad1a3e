/** The reserved constant-pool indices of the built-in classes and methods,
    counted down from the largest `uint32_t`. They never occupy pool
    storage; the model uses them only as object tags. */
module Intrinsics {

  const UINT32_MAX: nat := 0xffff_ffff
  const BUILTIN_ENTRIES: nat := 8

  const CLASS_STRING: nat := UINT32_MAX - (BUILTIN_ENTRIES - 1)
  const CLASS_CONSOLE: nat := UINT32_MAX - (BUILTIN_ENTRIES - 2)
  const METHOD_CONSOLE_PRINTLN: nat := UINT32_MAX - (BUILTIN_ENTRIES - 3)
  const CLASS_STRING_BUILDER: nat := UINT32_MAX - (BUILTIN_ENTRIES - 4)
  const METHOD_STRING_BUILDER_APPEND_STRING: nat := UINT32_MAX - (BUILTIN_ENTRIES - 5)
  const METHOD_STRING_BUILDER_APPEND_INT: nat := UINT32_MAX - (BUILTIN_ENTRIES - 6)
  const METHOD_STRING_BUILDER_APPEND_BOOL: nat := UINT32_MAX - (BUILTIN_ENTRIES - 7)
  const METHOD_STRING_BUILDER_TO_STRING: nat := UINT32_MAX - (BUILTIN_ENTRIES - 8)
}
