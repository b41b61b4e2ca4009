/**
 The fixed-size path buffer that listing and deletion share. `Add` behaves like the source's
 snprintf: it accepts a path of exactly PATH_MAX characters although only PATH_MAX - 1 of them
 have been kept.
 */
module PathBuffer {
  import opened Basics

  const PATH_MAX := 4096
  const NUL := '\0'

  class PathBuffer {
    const data: array<char>
    var length: nat

    /** NUL-terminated where it ends, or at the last place but one if it was cut there. */
    ghost predicate Valid()
      reads this, data
    {
      && data.Length == PATH_MAX + 1 && length <= PATH_MAX
      && NUL !in data[..Min(length, PATH_MAX - 1)]
      && data[Min(length, PATH_MAX - 1)] == NUL
    }

    /** The C string in the buffer. */
    ghost function Text(): string
      requires Valid()
      reads this, data
    {
      data[..Min(length, PATH_MAX - 1)]
    }

    constructor ()
      ensures Valid() && fresh(data) && length == 0 && Text() == ""
    {
      data := new char[PATH_MAX + 1](i => NUL);
      length := 0;
    }

    /**
     Appends `name`. On success the text is the old text and the name, cut at PATH_MAX - 1
     characters; on failure only what lies past `length` has been overwritten.
     */
    method Add(name: string) returns (ok: bool)
      requires Valid() && NUL !in name
      modifies this`length, data
      ensures ok <==> old(length) + |name| <= PATH_MAX
      ensures length == if ok then old(length) + |name| else old(length)
      ensures data[..old(length)] == old(data[..length])
      ensures ok ==> Valid()
      ensures ok ==> Text() == (old(Text()) + name)[..Min(length, PATH_MAX - 1)]
      ensures ok && name != "" ==> (Text() == old(Text()) + name <==> length < PATH_MAX)
    {
      var room := PATH_MAX - length;
      var written := |name|;
      if room > 0 {
        var kept := Min(written, room - 1);
        forall i | 0 <= i < kept {
          data[length + i] := name[i];
        }
        data[length + kept] := NUL;
      }
      data[PATH_MAX] := NUL;
      ok := written <= PATH_MAX - length;
      if ok {
        length := length + written;
        if room > 0 {
          assert data[..Min(length, PATH_MAX - 1)] == old(data[..length]) + name[..Min(written, room - 1)];
        }
      }
    }

    /** The C string in the buffer, as a value. */
    method AsString() returns (text: string)
      requires Valid()
      ensures text == Text()
    {
      text := data[..Min(length, PATH_MAX - 1)];
    }

    /** Goes back to the first `newLength` characters. */
    method Reset(newLength: nat)
      requires data.Length == PATH_MAX + 1 && newLength <= PATH_MAX
      requires NUL !in data[..Min(newLength, PATH_MAX - 1)]
      requires newLength == PATH_MAX ==> data[PATH_MAX - 1] == NUL
      modifies this`length, data
      ensures Valid() && length == newLength
      ensures Text() == old(data[..Min(newLength, PATH_MAX - 1)])
    {
      length := newLength;
      data[length] := NUL;
      assert data[..Min(newLength, PATH_MAX - 1)] == old(data[..Min(newLength, PATH_MAX - 1)]);
    }
  }
}
