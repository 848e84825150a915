/** Tag values of the Erlang External Term Format (erl_ext_dist). */
module ErlangTags {
  import opened Prelude

  const TAG_VERSION: byte := 131
  const TAG_COMPRESSED_ZLIB: byte := 80
  const TAG_NEW_FLOAT_EXT: byte := 70
  const TAG_BIT_BINARY_EXT: byte := 77
  const TAG_ATOM_CACHE_REF: byte := 78
  const TAG_NEW_PID_EXT: byte := 88
  const TAG_NEW_PORT_EXT: byte := 89
  const TAG_NEWER_REFERENCE_EXT: byte := 90
  const TAG_SMALL_INTEGER_EXT: byte := 97
  const TAG_INTEGER_EXT: byte := 98
  const TAG_FLOAT_EXT: byte := 99
  const TAG_ATOM_EXT: byte := 100
  const TAG_REFERENCE_EXT: byte := 101
  const TAG_PORT_EXT: byte := 102
  const TAG_PID_EXT: byte := 103
  const TAG_SMALL_TUPLE_EXT: byte := 104
  const TAG_LARGE_TUPLE_EXT: byte := 105
  const TAG_NIL_EXT: byte := 106
  const TAG_STRING_EXT: byte := 107
  const TAG_LIST_EXT: byte := 108
  const TAG_BINARY_EXT: byte := 109
  const TAG_SMALL_BIG_EXT: byte := 110
  const TAG_LARGE_BIG_EXT: byte := 111
  const TAG_NEW_FUN_EXT: byte := 112
  const TAG_EXPORT_EXT: byte := 113
  const TAG_NEW_REFERENCE_EXT: byte := 114
  const TAG_SMALL_ATOM_EXT: byte := 115
  const TAG_MAP_EXT: byte := 116
  const TAG_FUN_EXT: byte := 117
  const TAG_ATOM_UTF8_EXT: byte := 118
  const TAG_SMALL_ATOM_UTF8_EXT: byte := 119
}
