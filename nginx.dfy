/**
 * The host vocabulary that every part of the webp module model shares:
 * nginx's return codes, the HTTP status codes and errno values the module
 * produces or inspects, unsigned 64-bit arithmetic (ngx_uint_t, size_t,
 * ngx_msec_t on an LP64 host) and the substring test ngx_strstr.
 *
 * Byte strings (ngx_str_t, u_char *) are modelled as `string`, one
 * character per byte; encoded images and pixel buffers as `Bytes`.
 * An ngx_str_t is a pointer and a length and need not be NUL-terminated:
 * a C string function handed its data pointer reads the memory from there
 * up to the first NUL, whatever the length says. Such memory is modelled
 * as the string's bytes followed by a `tail` of whatever lies after them.
 */
module Nginx {

  datatype Option<+T> = None | Some(value: T)

  type Bytes = seq<bv8>

  // ngx_int_t return codes of the nginx core
  const NGX_OK: int := 0
  const NGX_ERROR: int := -1
  const NGX_AGAIN: int := -2
  const NGX_DECLINED: int := -5

  // HTTP status codes
  const HTTP_OK: int := 200
  const HTTP_BAD_REQUEST: int := 400
  const HTTP_FORBIDDEN: int := 403
  const HTTP_NOT_FOUND: int := 404
  const HTTP_REQUEST_ENTITY_TOO_LARGE: int := 413
  const HTTP_TOO_MANY_REQUESTS: int := 429
  const HTTP_INTERNAL_SERVER_ERROR: int := 500

  // errno values (Linux numbering) that serve_file and init_process distinguish
  const ENOENT: int := 2
  const EACCES: int := 13
  const EEXIST: int := 17
  const ENOTDIR: int := 20
  const ENAMETOOLONG: int := 36

  /** 2^64: the modulus of every unsigned 64-bit host integer. */
  const U64_MODULUS: nat := 0x1_0000_0000_0000_0000

  /** The largest ngx_int_t; an unsigned value above it reads as negative when cast. */
  const I64_MAX: nat := 0x7FFF_FFFF_FFFF_FFFF

  predicate IsU64(x: int) {
    0 <= x < U64_MODULUS
  }

  /** Unsigned 64-bit subtraction a - b, wrapping around as C does. */
  function SubU64(a: int, b: int): (r: nat)
    ensures r < U64_MODULUS
    ensures 0 <= a - b < U64_MODULUS ==> r == a - b
    ensures -(U64_MODULUS as int) <= a - b < 0 ==> r == a - b + U64_MODULUS
  {
    (a - b) % U64_MODULUS
  }

  /**
   * ngx_strstr(hay, needle) != NULL: `needle` occurs in `hay` at some
   * offset (a substring test, not a suffix test).
   */
  predicate Contains(hay: string, needle: string)
    ensures Contains(hay, needle) ==> |needle| <= |hay|
    ensures needle == [] ==> Contains(hay, needle)
    decreases |hay|
  {
    needle <= hay || (|hay| > 0 && Contains(hay[1..], needle))
  }

  /** `needle` occurs in `hay` starting at offset `i`. */
  predicate OccursAt(hay: string, needle: string, i: nat) {
    i + |needle| <= |hay| && hay[i..i + |needle|] == needle
  }

  /** Contains agrees with the positional definition of an occurrence. */
  lemma {:induction false} ContainsAt(hay: string, needle: string)
    ensures Contains(hay, needle) <==> exists i: nat :: OccursAt(hay, needle, i)
    decreases |hay|
  {
    if needle <= hay {
      assert OccursAt(hay, needle, 0);
    } else if |hay| > 0 {
      ContainsAt(hay[1..], needle);
      if Contains(hay[1..], needle) {
        var i: nat :| OccursAt(hay[1..], needle, i);
        assert hay[i + 1..i + 1 + |needle|] == hay[1..][i..i + |needle|];
        assert OccursAt(hay, needle, i + 1);
      }
      if exists i: nat :: OccursAt(hay, needle, i) {
        var i: nat :| OccursAt(hay, needle, i);
        if i > 0 {
          assert hay[1..][i - 1..i - 1 + |needle|] == hay[i..i + |needle|];
          assert OccursAt(hay[1..], needle, i - 1);
        }
      }
    }
  }

  /**
   * The C string that starts at a pointer whose memory is `mem`: its bytes
   * up to, not including, the first NUL (all of `mem` when it has none).
   */
  function CString(mem: string): (s: string)
    ensures s <= mem && '\0' !in s
    ensures |s| < |mem| ==> mem[|s|] == '\0'
    ensures '\0' !in mem ==> s == mem
    decreases |mem|
  {
    if mem == [] || mem[0] == '\0' then [] else [mem[0]] + CString(mem[1..])
  }

  /** ngx_strstr(p, needle) != NULL for a pointer p whose memory is `mem`. */
  predicate StrStr(mem: string, needle: string) {
    Contains(CString(mem), needle)
  }

  /** A string with no NUL of its own runs on into whatever memory follows it. */
  lemma {:induction false} CStringRunsOn(s: string, tail: string)
    requires '\0' !in s
    ensures CString(s + tail) == s + CString(tail)
    decreases |s|
  {
    if s != [] {
      assert s[0] in s;
      assert (s + tail)[0] == s[0] && (s + tail)[1..] == s[1..] + tail;
      CStringRunsOn(s[1..], tail);
      assert CString(s + tail) == [s[0]] + CString(s[1..] + tail);
      assert s == [s[0]] + s[1..];
    } else {
      assert s + tail == tail;
    }
  }

  /** An occurrence in the tail is an occurrence in the whole. */
  lemma {:induction false} ContainsInTail(s: string, tail: string, needle: string)
    requires Contains(tail, needle)
    ensures Contains(s + tail, needle)
    decreases |s|
  {
    if s != [] {
      assert (s + tail)[1..] == s[1..] + tail;
      ContainsInTail(s[1..], tail, needle);
      assert |s + tail| > 0 && Contains((s + tail)[1..], needle);
    } else {
      assert s + tail == tail;
    }
  }

  /**
   * ngx_strstr on an ngx_str_t's data: a needle in the memory after the
   * string's own bytes is found as long as the string holds no NUL; when a
   * NUL directly follows the string, only the string's own bytes count.
   */
  lemma StrStrPastLength(s: string, tail: string, needle: string)
    requires '\0' !in s
    ensures StrStr(tail, needle) ==> StrStr(s + tail, needle)
    ensures tail != [] && tail[0] == '\0' ==> (StrStr(s + tail, needle) <==> Contains(s, needle))
  {
    CStringRunsOn(s, tail);
    if StrStr(tail, needle) {
      ContainsInTail(s, CString(tail), needle);
    }
    if tail != [] && tail[0] == '\0' {
      assert CString(tail) == [];
      assert s + CString(tail) == s;
    }
  }
}
