/**
 * The string of src/string.c: a vector of chars (the Vectors model of src/vector.c) that
 * holds the text followed by one '\0' terminator, so that the buffer is always a C
 * string.  Every edit is a vector insert or remove at an index inside the text, which
 * keeps the terminator last.  The C ignores some failed allocations (the first terminator
 * in new and clear, the text in new, set and sub); the vector is then left without its
 * terminator, and the model tracks that state instead of ruling it out.
 *
 * A C string argument is an Option: None is the NULL pointer, Some(cs) the characters
 * before its terminator.
 */
module Strings {
  import opened Wrappers
  import opened Common
  import Vectors

  /** The characters of a C string argument; strlen(NULL) is taken as 0, as the C does. */
  function Chars(cstr: Option<seq<char>>): seq<char>
  {
    if cstr.Some? then cstr.value else []
  }

  /** A C string argument: NULL, or characters without a '\0' among them. */
  predicate IsCString(cstr: Option<seq<char>>)
  {
    cstr.Some? ==> '\0' !in cstr.value
  }

  /** What C string functions (strlen, strcmp) see in a buffer: the characters before the first '\0'. */
  function CString(s: seq<char>): (r: seq<char>)
    ensures '\0' !in r
    ensures r <= s
    ensures |r| < |s| ==> s[|r|] == '\0'
  {
    if s == [] || s[0] == '\0' then [] else [s[0]] + CString(s[1..])
  }

  /** A buffer holding a text without '\0' and then a terminator reads as exactly that text. */
  lemma {:induction false} CStringOfTerminated(t: seq<char>)
    requires '\0' !in t
    ensures CString(t + ['\0']) == t
  {
    if t != [] {
      assert (t + ['\0'])[1..] == t[1..] + ['\0'];
      CStringOfTerminated(t[1..]);
    }
  }

  /** The same, stated for any text: one without '\0' reads back whole. */
  lemma CleanTextReads(t: seq<char>)
    ensures '\0' !in t ==> CString(t + ['\0']) == t
  {
    if '\0' !in t {
      CStringOfTerminated(t);
    }
  }

  /** Reading a C string twice changes nothing. */
  lemma CStringIdempotent(s: seq<char>)
    ensures CString(CString(s) + ['\0']) == CString(s)
  {
    CStringOfTerminated(CString(s));
  }

  /** Only a text ending the buffer or followed by '\0' is what a C string function reads. */
  lemma {:induction false} CStringUnique(s: seq<char>, r: seq<char>)
    requires r <= s && '\0' !in r && (|r| == |s| || s[|r|] == '\0')
    ensures CString(s) == r
  {
    if r != [] {
      assert s[0] == r[0];
      CStringUnique(s[1..], r[1..]);
    }
  }

  /** removes' guard as src/string.c:264 writes it, in size_t arithmetic: index + length < the text's length. */
  function RemovesGuardAsWritten(index: nat, length: nat, textLength: nat): bool
    requires index <= SizeMax && length <= SizeMax
  {
    (index + length) % (SizeMax + 1) < textLength
  }

  /** The guard it evidently means: the run lies inside the text. */
  function RemovesGuard(index: nat, length: nat, textLength: nat): bool
  {
    index + length <= textLength
  }

  /** The written guard refuses every run that reaches the end of the text. */
  lemma RemovesGuardRefusesTail(index: nat, length: nat, textLength: nat)
    requires index + length == textLength <= SizeMax
    ensures RemovesGuard(index, length, textLength)
    ensures !RemovesGuardAsWritten(index, length, textLength)
  {
  }

  /** Removing " world" from "hello world" is refused as written, though the run lies inside the text. */
  lemma RemovesGuardRefusesWorld()
    ensures !RemovesGuardAsWritten(5, 6, |"hello world"|)
    ensures Removed("hello world", 5, 6) == "hello"
  {
  }

  /** Short of the end of the text and without wrap-around, the two guards agree. */
  lemma RemovesGuardAgrees(index: nat, length: nat, textLength: nat)
    requires index + length != textLength && index + length <= SizeMax
    ensures RemovesGuardAsWritten(index, length, textLength) == RemovesGuard(index, length, textLength)
  {
  }

  /**
   * What silk_string_removes accepts on a terminated string, both guards as written and
   * nothing wrapping: a non-empty run that ends before the end of the text, or an empty
   * run anywhere but at index 0.
   */
  lemma RemovesGuardsAsWritten(index: nat, length: nat, textLength: nat)
    requires index + length <= SizeMax && textLength < SizeMax
    ensures RemovesGuardAsWritten(index, length, textLength) && Vectors.RemovesGuardAsWritten(index, length, textLength + 1)
      <==> index + length < textLength && (length == 0 ==> 0 < index)
  {
    assert (index + length) % (SizeMax + 1) == index + length;
    if index + length == 0 {
      assert (index + length + SizeMax) % (SizeMax + 1) == SizeMax;
    } else {
      assert (index + length + SizeMax) % (SizeMax + 1) == index + length - 1;
    }
  }

  class String {
    var vec: Vectors.Vector<char>

    ghost predicate Valid()
      reads this, vec
    {
      vec.Valid()
    }

    /** The buffer ends with its terminator: the state every operation keeps. */
    ghost predicate Terminated()
      reads this, vec, vec.data
      requires Valid()
    {
      |vec.Contents()| > 0 && vec.Contents()[|vec.Contents()| - 1] == '\0'
    }

    /** silk_string_length: one less than the vector's length, or 0 for an empty vector. */
    function Length(): (n: nat)
      reads this, vec
      requires Valid()
      ensures vec.length > 0 ==> n + 1 == vec.length
      ensures vec.length == 0 ==> n == 0
    {
      if vec.length > 0 then vec.length - 1 else 0
    }

    /** The text: the buffer without its last slot, the terminator. */
    function Text(): (t: seq<char>)
      reads this, vec, vec.data
      requires Valid()
      ensures |t| == Length()
      ensures Terminated() ==> vec.Contents() == t + ['\0']
    {
      vec.Contents()[..Length()]
    }

    constructor Wrap(v: Vectors.Vector<char>)
      ensures vec == v
    {
      vec := v;
    }

    /**
     * silk_string_new: null when allocating the string or its vector fails.  Otherwise the
     * buffer holds the characters and the terminator, or, when that allocation fails,
     * nothing.
     */
    static method New(cstr: Option<seq<char>>) returns (s: String?)
      requires IsCString(cstr)
      ensures s != null ==> fresh(s) && fresh(s.vec) && fresh(s.vec.data) && s.Valid()
      ensures s != null ==> s.vec.Contents() == Chars(cstr) + ['\0'] || s.vec.Contents() == []
    {
      var granted: bool := *;
      if !granted {
        return null;
      }
      var v := Vectors.Vector<char>.New();
      if v == null {
        return null;
      }
      var len := |Chars(cstr)|;
      if len > 0 {
        // the characters and the '\0' after them
        var _ := v.Inserts(0, Chars(cstr) + ['\0']);
      } else {
        var _ := v.Append('\0');
      }
      s := new String.Wrap(v);
    }

    /** silk_string_clear: the empty text, or an empty buffer when the terminator cannot be allocated. */
    method Clear()
      requires Valid()
      modifies vec
      ensures Valid() && fresh(vec.data)
      ensures vec.Contents() == ['\0'] || vec.Contents() == []
      ensures Terminated() ==> Text() == []
    {
      vec.Clear();
      var _ := vec.Append('\0');
    }

    /**
     * silk_string_set: clear, then insert the characters in front of the terminator.
     * With no allocation failing the text is the characters; the result is true
     * regardless.
     */
    method Set(cstr: Option<seq<char>>) returns (ok: bool)
      requires Valid() && IsCString(cstr)
      modifies vec
      ensures Valid() && ok
      ensures vec.Contents() in {Chars(cstr) + ['\0'], ['\0'], Chars(cstr), []}
      ensures Terminated() ==> Text() == Chars(cstr) || Text() == []
    {
      Clear();
      var len := |Chars(cstr)|;
      if len > 0 {
        ghost var before := vec.Contents();
        var _ := vec.Inserts(0, Chars(cstr));
        assert Inserted(before, 0, Chars(cstr)) == Chars(cstr) + before;
        assert vec.Contents() in {before, Chars(cstr) + before};
        assert Chars(cstr) + [] == Chars(cstr);
      }
      return true;
    }

    /** silk_string_at: the character at index, or '\0' past the end of the text. */
    function At(index: nat): (c: char)
      reads this, vec, vec.data
      requires Valid()
      ensures index < |Text()| ==> c == Text()[index]
      ensures index >= |Text()| ==> c == '\0'
    {
      if index < Length() then vec.data[index] else '\0'
    }

    /**
     * silk_string_equal: strcmp of the two buffers, so the texts are compared up to a
     * '\0' inside them.
     */
    function Equal(other: String): (b: bool)
      reads this, vec, vec.data, other, other.vec, other.vec.data
      requires Valid() && other.Valid() && Terminated() && other.Terminated()
      ensures Text() == other.Text() ==> b
      ensures '\0' !in Text() && '\0' !in other.Text() ==> (b <==> Text() == other.Text())
    {
      CleanTextReads(Text());
      CleanTextReads(other.Text());
      CString(vec.Contents()) == CString(other.vec.Contents())
    }

    /** silk_string_insert: place ch before position index of the text. */
    method Insert(index: nat, ch: char) returns (ok: bool)
      requires Valid()
      modifies vec, vec.data
      ensures Valid()
      ensures ok ==> index <= old(Length()) && vec.Contents() == Inserted(old(vec.Contents()), index, [ch])
      ensures !ok ==> vec.Contents() == old(vec.Contents())
      ensures old(Terminated()) ==> Terminated() && Text() == if ok then Inserted(old(Text()), index, [ch]) else old(Text())
      ensures index <= old(Length()) && old(vec.capacity) > old(vec.length) + 1 ==> ok
    {
      if index > Length() {
        return false;
      }
      ghost var t := Text();
      ok := vec.Insert(index, ch);
      if ok && old(Terminated()) {
        InsertedBeforeLast(t, index, [ch], '\0');
      }
    }

    /**
     * silk_string_inserts: place the characters of cstr before position index of the text.
     * A failed insert is a SILK_ASSERT without a value, modelled as false.
     */
    method Inserts(index: nat, cstr: Option<seq<char>>) returns (ok: bool)
      requires Valid() && IsCString(cstr)
      modifies vec, vec.data
      ensures Valid()
      ensures ok ==> index <= old(Length()) && vec.Contents() == Inserted(old(vec.Contents()), index, Chars(cstr))
      ensures !ok ==> vec.Contents() == old(vec.Contents())
      ensures old(Terminated()) ==> Terminated() && Text() == if ok then Inserted(old(Text()), index, Chars(cstr)) else old(Text())
      ensures index <= old(Length()) && (Chars(cstr) == [] || old(vec.capacity) > old(vec.length) + |Chars(cstr)|) ==> ok
    {
      if index > Length() {
        return false;
      }
      ghost var t := Text();
      var len := |Chars(cstr)|;
      if len > 0 {
        ok := vec.Inserts(index, Chars(cstr));
        if !ok {
          return false;
        }
      } else {
        assert Inserted(vec.Contents(), index, []) == vec.Contents();
      }
      if old(Terminated()) {
        InsertedBeforeLast(t, index, Chars(cstr), '\0');
      }
      return true;
    }

    /** silk_string_append: ch after the last character of the text. */
    method Append(ch: char) returns (ok: bool)
      requires Valid()
      modifies vec, vec.data
      ensures Valid()
      ensures old(Terminated()) ==> Terminated() && Text() == if ok then old(Text()) + [ch] else old(Text())
      ensures old(vec.capacity) > old(vec.length) + 1 ==> ok
    {
      ok := Insert(Length(), ch);
    }

    /** silk_string_appends: the characters of cstr after the text. */
    method Appends(cstr: Option<seq<char>>) returns (ok: bool)
      requires Valid() && IsCString(cstr)
      modifies vec, vec.data
      ensures Valid()
      ensures old(Terminated()) ==> Terminated() && Text() == if ok then old(Text()) + Chars(cstr) else old(Text())
      ensures Chars(cstr) == [] || old(vec.capacity) > old(vec.length) + |Chars(cstr)| ==> ok
    {
      ok := Inserts(Length(), cstr);
    }

    /** silk_string_remove: drop the character at index of the text. */
    method Remove(index: nat) returns (ok: bool)
      requires Valid() && index <= SizeMax
      modifies vec, vec.data
      ensures Valid()
      ensures ok <==> index < old(Length())
      ensures ok ==> vec.Contents() == Removed(old(vec.Contents()), index, 1)
      ensures !ok ==> vec.Contents() == old(vec.Contents())
      ensures old(Terminated()) ==> Terminated() && Text() == if ok then Removed(old(Text()), index, 1) else old(Text())
    {
      if index >= Length() {
        return false;
      }
      ghost var t := Text();
      ok := vec.Remove(index);
      if old(Terminated()) {
        RemovedBeforeLast(t, index, 1, '\0');
      }
    }

    /**
     * silk_string_removes as written: the strict guard of RemovesGuardAsWritten, then the
     * vector's removes with its own guard as written.  A run that wraps past SIZE_MAX and
     * passes both guards makes the C copy outside the buffer; the model then promises
     * nothing of the text.
     */
    method Removes(index: nat, length: nat) returns (ok: bool)
      requires Valid() && index <= SizeMax && length <= SizeMax
      modifies vec, vec.data
      ensures Valid()
      ensures ok <==> RemovesGuardAsWritten(index, length, old(Length())) && Vectors.RemovesGuardAsWritten(index, length, old(vec.length))
      ensures ok && RemovesGuard(index, length, old(Length())) ==> vec.Contents() == Removed(old(vec.Contents()), index, length)
      ensures !ok ==> vec.Contents() == old(vec.Contents())
      ensures old(Terminated()) && (ok ==> RemovesGuard(index, length, old(Length()))) ==>
        Terminated() && Text() == if ok then Removed(old(Text()), index, length) else old(Text())
    {
      if !RemovesGuardAsWritten(index, length, Length()) {
        return false;
      }
      ghost var t := Text();
      ghost var n := Length();
      ok := vec.Removes(index, length);
      if old(Terminated()) && ok && RemovesGuard(index, length, n) {
        RemovedBeforeLast(t, index, length, '\0');
      }
    }

    /** silk_string_removes with the guard of RemovesGuard: drop length characters from index on. */
    method RemovesIntended(index: nat, length: nat) returns (ok: bool)
      requires Valid()
      modifies vec, vec.data
      ensures Valid()
      ensures ok <==> RemovesGuard(index, length, old(Length()))
      ensures ok ==> vec.Contents() == Removed(old(vec.Contents()), index, length)
      ensures !ok ==> vec.Contents() == old(vec.Contents())
      ensures old(Terminated()) ==> Terminated() && Text() == if ok then Removed(old(Text()), index, length) else old(Text())
    {
      if !RemovesGuard(index, length, Length()) {
        return false;
      }
      ghost var t := Text();
      ok := vec.RemovesIntended(index, length);
      if old(Terminated()) {
        RemovedBeforeLast(t, index, length, '\0');
      }
    }

    /**
     * silk_string_sub: a new string holding the length characters from index on, or null
     * when the run is not inside the text or the new string cannot be allocated.  When
     * the copy of the characters fails the new string keeps its empty text.
     */
    method Sub(index: nat, length: nat) returns (r: String?)
      requires Valid()
      ensures r != null ==> index + length <= Length()
      ensures r != null ==> fresh(r) && fresh(r.vec) && r.Valid()
      ensures r != null ==> r.vec.Contents() in {Text()[index..index + length] + ['\0'], ['\0'], Text()[index..index + length], []}
    {
      if index + length > Length() {
        return null;
      }
      r := New(None);
      if r == null {
        return null;
      }
      ghost var before := r.vec.Contents();
      ghost var slice := Text()[index..index + length];
      assert vec.data[index..index + length] == slice;
      var _ := r.vec.Inserts(0, vec.data[index..index + length]);
      assert Inserted(before, 0, slice) == slice + before;
      assert r.vec.Contents() in {before, slice + before};
      assert slice + [] == slice;
    }

    /**
     * silk_string_copy: a new string built from this one's buffer read as a C string, so
     * the copy's text stops at a '\0' inside the text.  A vector without storage hands
     * out a NULL data pointer, which silk_string_new reads as the empty text.
     */
    method Copy() returns (r: String?)
      requires Valid() && (Terminated() || vec.capacity == 0)
      ensures r != null ==> fresh(r) && fresh(r.vec) && r.Valid()
      ensures r != null ==> r.vec.Contents() == CString(Text()) + ['\0'] || r.vec.Contents() == []
    {
      if vec.capacity == 0 {
        r := New(None);
        return;
      }
      var chars := CString(vec.data[..vec.length]);
      CStringUnique(vec.Contents(), CString(Text()));
      r := New(Some(chars));
    }
  }

  /** A copy whose allocations succeed is equal to its original. */
  lemma CopyIsEqual(s: String, c: String)
    requires s.Valid() && c.Valid() && s.Terminated()
    requires c.vec.Contents() == CString(s.Text()) + ['\0']
    ensures c.Terminated() && s.Equal(c)
  {
    CStringOfTerminated(CString(s.Text()));
    CStringUnique(s.vec.Contents(), CString(s.Text()));
  }
}
