/** The rune reader behind the repository's small parsers: one rune can be pushed back, and only
    directly after it was read. */
module Lexing {

  /** `input` is the decoded text. `offset` and `canUnread` are the state of the buffered reader;
      `pos` is the lexer's own count, which is reported in error messages. */
  class Lexer {
    const input: seq<char>
    var offset: nat
    var canUnread: bool
    var pos: int

    constructor (str: seq<char>)
      ensures Valid() && input == str && Rest() == str && pos == 0
    {
      input := str;
      offset := 0;
      canUnread := false;
      pos := 0;
    }

    ghost predicate Valid()
      reads this
    {
      && offset <= |input|
      && (canUnread ==> offset > 0)
      && pos == offset
    }

    /** What is still to be read. */
    ghost function Rest(): seq<char>
      requires Valid()
      reads this
    {
      input[offset..]
    }

    lemma SplitRest(start: nat)
      requires Valid() && start <= offset
      ensures input[start..] == input[start..offset] + Rest()
    {
    }

    method Read() returns (r: char, ok: bool)
      requires Valid()
      modifies this`offset, this`canUnread, this`pos
      ensures Valid()
      ensures ok <==> old(Rest()) != []
      ensures ok ==> r == old(Rest())[0] == input[old(offset)] && Rest() == old(Rest())[1..] && canUnread
      ensures !ok ==> Rest() == [] && !canUnread
      ensures pos == old(pos) + (if ok then 1 else 0)
    {
      if offset == |input| {
        canUnread := false;
        return '\0', false;
      }
      r, ok := input[offset], true;
      offset := offset + 1;
      canUnread := true;
      pos := pos + 1;
    }

    /** Pushing back is an error unless the last operation read a rune; the source panics. */
    method Backup()
      requires Valid() && canUnread
      modifies this`offset, this`canUnread, this`pos
      ensures Valid() && !canUnread
      ensures offset == old(offset) - 1 && pos == old(pos) - 1
      ensures Rest() == [input[offset]] + old(Rest())
    {
      offset := offset - 1;
      canUnread := false;
      pos := pos - 1;
    }

    method IsEOF() returns (eof: bool)
      requires Valid()
      modifies this`offset, this`canUnread, this`pos
      ensures Valid() && Rest() == old(Rest()) && pos == old(pos)
      ensures eof <==> Rest() == []
    {
      var _, ok := Read();
      if !ok {
        return true;
      }
      Backup();
      return false;
    }

    method ReadIf(fn: char -> bool) returns (r: char, ok: bool)
      requires Valid()
      modifies this`offset, this`canUnread, this`pos
      ensures Valid()
      ensures ok <==> old(Rest()) != [] && fn(old(Rest())[0])
      ensures ok ==> r == old(Rest())[0] == input[old(offset)] && Rest() == old(Rest())[1..] && canUnread
      ensures !ok ==> Rest() == old(Rest()) && !canUnread
      ensures pos == old(pos) + (if ok then 1 else 0)
    {
      r, ok := Read();
      if !ok {
        return '\0', false;
      }
      if !fn(r) {
        Backup();
        return '\0', false;
      }
    }

    method ReadChar(c: char) returns (ok: bool)
      requires Valid()
      modifies this`offset, this`canUnread, this`pos
      ensures Valid()
      ensures ok <==> old(Rest()) != [] && old(Rest())[0] == c
      ensures ok ==> Rest() == old(Rest())[1..] && canUnread
      ensures !ok ==> Rest() == old(Rest())
      ensures pos == old(pos) + (if ok then 1 else 0)
    {
      var _, found := ReadIf(x => x == c);
      ok := found;
    }

    /** Reads the longest run of runes that satisfy `fn`. */
    method ReadWhile(fn: char -> bool) returns (str: seq<char>)
      requires Valid()
      modifies this`offset, this`canUnread, this`pos
      ensures Valid()
      ensures old(Rest()) == str + Rest()
      ensures forall k :: 0 <= k < |str| ==> fn(str[k])
      ensures Rest() != [] ==> !fn(Rest()[0])
      ensures pos == old(pos) + |str|
    {
      str := [];
      while true
        invariant Valid()
        invariant old(offset) <= offset && str == input[old(offset)..offset]
        invariant forall k :: 0 <= k < |str| ==> fn(str[k])
        invariant pos == old(pos) + |str|
        decreases |Rest()|
      {
        var r, ok := ReadIf(fn);
        if !ok {
          break;
        }
        str := str + [r];
      }
      SplitRest(old(offset));
    }

    /** Reads up to and including the first rune that satisfies `fn`, or to the end. */
    method ReadUntil(fn: char -> bool) returns (str: seq<char>)
      requires Valid()
      modifies this`offset, this`canUnread, this`pos
      ensures Valid()
      ensures old(Rest()) == str + Rest()
      ensures forall k :: 0 <= k < |str| - 1 ==> !fn(str[k])
      ensures str == [] || !fn(str[|str| - 1]) ==> Rest() == []
      ensures pos == old(pos) + |str|
    {
      str := [];
      while true
        invariant Valid()
        invariant old(offset) <= offset && str == input[old(offset)..offset]
        invariant forall k :: 0 <= k < |str| ==> !fn(str[k])
        invariant pos == old(pos) + |str|
        decreases |Rest()|
      {
        var r, ok := Read();
        if !ok {
          break;
        }
        str := str + [r];
        if fn(r) {
          break;
        }
      }
      SplitRest(old(offset));
    }
  }
}
