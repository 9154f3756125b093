/**
  What the models of C text have in common.
 */
module CText {

  datatype Option<T> = None | Some(value: T)

  /** A character of a C string, or its NUL. */
  function At(s: string, i: nat): char {
    if i < |s| then s[i] else '\0'
  }

  /** tolower in the C locale. */
  function Lower(c: char): char {
    if 'A' <= c <= 'Z' then c + 32 as char else c
  }
}

/** Bytes as numbers. */
module Octets {

  type Byte = n: nat | n < 256

  type Bytes = seq<Byte>
}
