/**
 * The growable string of src/string/string.c: a character buffer of `cap`
 * bytes holding `len` characters followed by a NUL, grown by doubling.
 *
 * malloc and realloc may fail: each call that allocates takes a `granted`
 * flag saying whether the allocation succeeded. The characters beyond the
 * NUL are whatever the buffer held; nothing is promised about them.
 */
module Strings {
  import opened Common

  /** The initial capacity, in bytes. */
  const DEFAULT: nat := 100
  /** The factor capacities grow by. */
  const GROWTH: nat := 2
  const NUL: char := '\0'

  function Pow2(k: nat): (r: nat)
    ensures r >= 1
  {
    if k == 0 then 1 else GROWTH * Pow2(k - 1)
  }

  /**
   * The capacity string_append_cstr settles on for `need` characters
   * before the NUL: `cap` doubled until it exceeds `need`.
   */
  function GrowTo(cap: nat, need: nat): nat
    requires cap > 0
    decreases need - cap
  {
    if need < cap then cap else GrowTo(GROWTH * cap, need)
  }

  /**
   * GrowTo gives the smallest `cap * 2^k` that holds `need` characters and
   * the NUL: it exceeds `need`, and half of it, if it grew at all, does not.
   */
  lemma {:induction false} GrowToSmallest(cap: nat, need: nat) returns (k: nat)
    requires cap > 0
    ensures GrowTo(cap, need) == cap * Pow2(k)
    ensures need < GrowTo(cap, need)
    ensures k > 0 ==> cap * Pow2(k - 1) <= need
    decreases need - cap
  {
    if need < cap {
      return 0;
    }
    var k' := GrowToSmallest(GROWTH * cap, need);
    k := k' + 1;
    assert GROWTH * cap * Pow2(k') == cap * (GROWTH * Pow2(k'));
    if k' > 0 {
      assert GROWTH * cap * Pow2(k' - 1) == cap * (GROWTH * Pow2(k' - 1));
    }
  }

  class StringBuf {
    /** The number of characters, not counting the NUL. */
    var len: nat
    /** The size of the buffer, in bytes. */
    var cap: nat
    var text: array<char>

    /**
     * assert_valid_string: `len <= cap`, a buffer, and a NUL at `text[len]`.
     * That last read is inside the buffer only when `len < cap`.
     */
    ghost predicate Valid()
      reads this, text
    {
      text.Length == cap && len < cap && text[len] == NUL
    }

    /** The characters of the string. */
    ghost function Contents(): (s: string)
      requires Valid()
      reads this, text
      ensures |s| == len
    {
      text[..len]
    }

    /** make_string, past its two allocations: the empty string in a buffer of DEFAULT bytes. */
    constructor Make()
      ensures Valid() && len == 0 && cap == DEFAULT && Contents() == []
      ensures fresh(text)
    {
      text := new char[DEFAULT];
      new;
      EmptyString();
      cap := DEFAULT;
    }

    /**
     * empty_string: the length drops to 0 and a NUL goes at the start; the
     * buffer and its capacity stay. As in make_string, it asks only for a
     * buffer to write the NUL into.
     */
    method EmptyString()
      requires text.Length > 0
      modifies this, text
      ensures len == 0 && text == old(text) && text[0] == NUL
      ensures cap == old(cap)
      ensures cap == text.Length ==> Valid() && Contents() == []
    {
      len := 0;
      text[len] := NUL;
    }

    /** get_length as written: `len - 1` in size_t arithmetic. */
    method GetLengthAsWritten() returns (n: nat)
      requires Valid()
      ensures len > 0 ==> n + 1 == |Contents()|
      ensures len == 0 ==> n == TWO_64 - 1
    {
      n := if len == 0 then TWO_64 - 1 else len - 1;
    }

    /** get_length as documented: the string's length, as strlen of its text gives it. */
    method GetLength() returns (n: nat)
      requires Valid()
      ensures n == |Contents()|
    {
      n := len;
    }

    /** get_text: the buffer, whose characters up to the NUL are the string. */
    method GetText() returns (t: array<char>)
      requires Valid()
      ensures t == text && t[..len] == Contents() && len < t.Length && t[len] == NUL
    {
      t := text;
    }

    /**
     * enlarge_string: realloc the buffer to `newcap` bytes. On success the
     * first `cap` bytes move into the new buffer and `cap` becomes `newcap`;
     * on failure it returns 1 and nothing changes.
     */
    method Enlarge(newcap: nat, granted: bool) returns (rc: int)
      requires Valid() && newcap >= cap
      modifies this
      ensures Valid() && len == old(len) && Contents() == old(Contents())
      ensures granted ==> rc == 0 && cap == newcap && fresh(text) && text[..old(cap)] == old(text[..])
      ensures !granted ==> rc == 1 && cap == old(cap) && text == old(text)
    {
      if !granted {
        return 1;
      }
      var t := new char[newcap];
      for i := 0 to cap
        modifies t
        invariant t[..i] == text[..i]
      {
        t[i] := text[i];
      }
      assert t[..cap][..len] == t[..len];
      cap := newcap;
      text := t;
      return 0;
    }

    /**
     * string_append_char as written: grow when `len == cap`, store the
     * character at `len`, then the NUL one further on. The byte offsets it
     * writes, and the capacity the buffer has then.
     */
    method AppendCharAsWritten(c: char) returns (newCap: nat, charAt: nat, nulAt: nat)
      requires len <= cap
      ensures newCap == if len == cap then cap * GROWTH else cap
      ensures charAt == len && nulAt == len + 1
      ensures cap > 0 ==> charAt < newCap
      ensures nulAt < newCap <==> len + 1 < cap || (len == cap && cap > 1)
    {
      newCap := if len == cap then cap * GROWTH else cap;
      charAt := len;
      nulAt := len + 1;
    }

    /**
     * string_append_char as intended: grow (double) exactly when the
     * character would take the last byte, which the NUL needs; then store
     * the character and the NUL after it. On a failed growth it returns
     * nonzero and the string is as it was.
     */
    method AppendChar(c: char, granted: bool) returns (rc: int)
      requires Valid()
      modifies this, text
      ensures Valid()
      ensures rc == 0 <==> granted || old(len) + 1 < old(cap)
      ensures text == old(text) || fresh(text)
      ensures rc == 0 ==> Contents() == old(Contents()) + [c] && len == old(len) + 1
      ensures rc == 0 ==> cap == if old(len) + 1 == old(cap) then old(cap) * GROWTH else old(cap)
      ensures rc != 0 ==> rc == 1 && Contents() == old(Contents()) && cap == old(cap) && text == old(text)
    {
      if len + 1 == cap {
        rc := Enlarge(cap * GROWTH, granted);
        if rc != 0 {
          return;
        }
      }
      ghost var before := text[..len];
      text[len] := c;
      len := len + 1;
      text[len] := NUL;
      assert text[..len] == before + [c];
      return 0;
    }

    /**
     * The capacity loop of string_append_cstr: double `cap` until it
     * exceeds the length the string will have.
     */
    method NewCap(tlen: nat) returns (newcap: nat)
      requires Valid()
      ensures newcap == GrowTo(cap, len + tlen)
    {
      newcap := cap;
      while tlen + len >= newcap
        invariant newcap > 0 && GrowTo(newcap, len + tlen) == GrowTo(cap, len + tlen)
        decreases len + tlen - newcap
      {
        newcap := newcap * GROWTH;
      }
    }

    /**
     * string_append_cstr: grow to GrowTo(cap, len + |t|) when that is
     * larger, then copy `t` and its NUL after the string. `t` is a C string,
     * so it holds no NUL. On a failed growth it returns nonzero and the
     * string is as it was.
     */
    method AppendCStr(t: string, granted: bool) returns (rc: int)
      requires Valid() && NUL !in t
      modifies this, text
      ensures Valid()
      ensures rc == 0 <==> granted || old(len) + |t| < old(cap)
      ensures text == old(text) || fresh(text)
      ensures rc == 0 ==> Contents() == old(Contents()) + t && cap == GrowTo(old(cap), old(len) + |t|)
      ensures rc != 0 ==> rc == 1 && Contents() == old(Contents()) && cap == old(cap) && text == old(text)
    {
      var newcap := NewCap(|t|);
      var _ := GrowToSmallest(cap, len + |t|);
      if newcap > cap {
        rc := Enlarge(newcap, granted);
        if rc != 0 {
          return;
        }
      } else {
        assert newcap == cap;
      }
      MoveIn(t);
      return 0;
    }

    /**
     * The memmove of string_append_cstr and the length update after it:
     * `t` and its NUL go right after the string, which the buffer has room
     * for.
     */
    method MoveIn(t: string)
      requires Valid() && len + |t| < cap
      modifies this, text
      ensures Valid() && Contents() == old(Contents()) + t
      ensures cap == old(cap) && text == old(text)
    {
      ghost var before := text[..len];
      for i := 0 to |t|
        modifies text
        invariant text[..len] == before
        invariant text[len..len + i] == t[..i]
      {
        text[len + i] := t[i];
      }
      assert t[..|t|] == t;
      ghost var moved := text[..len + |t|];
      assert moved == text[..len] + text[len..len + |t|];
      text[len + |t|] := NUL;
      assert text[..len + |t|] == moved;
      assert moved == before + t;
      len := len + |t|;
    }
  }

  /**
   * make_string: a string struct and a DEFAULT-byte buffer, or NULL when
   * either allocation fails.
   */
  method MakeString(grantedStruct: bool, grantedText: bool) returns (s: StringBuf?)
    ensures grantedStruct && grantedText <==> s != null
    ensures s != null ==> fresh(s) && s.Valid() && s.len == 0 && s.cap == DEFAULT && s.Contents() == []
  {
    if !grantedStruct || !grantedText {
      return null;
    }
    s := new StringBuf.Make();
  }

  /**
   * As written, string_append_char writes the NUL one byte past the buffer
   * when the character fills its last byte: a 100-byte string holding 99
   * characters.
   */
  method AppendCharOverruns() returns (size: nat, nulAt: nat)
    ensures size == DEFAULT && nulAt == size
  {
    var s := new StringBuf.Make();
    var i := 0;
    while i < DEFAULT - 1
      invariant 0 <= i <= DEFAULT - 1 && s.Valid() && s.len == i && s.cap == DEFAULT
      invariant fresh(s) && fresh(s.text)
    {
      var _ := s.AppendChar('a', true);
      i := i + 1;
    }
    var charAt;
    size, charAt, nulAt := s.AppendCharAsWritten('a');
  }

  /** As written, get_length of "a" is 0, and of the empty string 2^64 - 1. */
  method GetLengthOffByOne() returns (empty: nat, one: nat)
    ensures empty == TWO_64 - 1 && one == 0
  {
    var s := new StringBuf.Make();
    empty := s.GetLengthAsWritten();
    var _ := s.AppendChar('a', true);
    one := s.GetLengthAsWritten();
  }
}
