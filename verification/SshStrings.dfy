/** Length-prefixed strings and the cursor that reads them: get_ssh_string and get_ssh_uint32 of misc.cpp. */
module SshStrings {
  import opened Machine

  /** A length-prefixed string. */
  function Str(s: seq<byte>): (r: seq<byte>)
    requires |s| < TWO32
    ensures |r| == |s| + 4
  {
    Bytes4(|s|) + s
  }

  function Strs(pieces: seq<seq<byte>>): seq<byte>
    requires forall i :: 0 <= i < |pieces| ==> |pieces[i]| < TWO32
  {
    if pieces == [] then [] else Str(pieces[0]) + Strs(pieces[1..])
  }

  function TakeUint32(s: seq<byte>): Option<(uint32, seq<byte>)> {
    if |s| < 4 then None else Some((Word4(s), s[4..]))
  }

  function TakeString(s: seq<byte>): Option<(seq<byte>, seq<byte>)> {
    if |s| < 4 || |s| - 4 < Word4(s) then None else Some((s[4..4 + Word4(s)], s[4 + Word4(s)..]))
  }

  function TakeStrings(n: nat, s: seq<byte>): Option<(seq<seq<byte>>, seq<byte>)> {
    if n == 0 then Some(([], s))
    else
      var first := TakeString(s);
      if first.None? then None
      else
        var others := TakeStrings(n - 1, first.value.1);
        if others.None? then None else Some(([first.value.0] + others.value.0, others.value.1))
  }

  /** get_ssh_uint32 undoes put_uint32, and accepts nothing else. */
  lemma Uint32Iff(s: seq<byte>, w: uint32, rest: seq<byte>)
    ensures TakeUint32(s) == Some((w, rest)) <==> s == Bytes4(w) + rest
  {
    WordSum(w);
    if |s| >= 4 {
      BytesOfWord(s);
      assert s == s[..4] + s[4..];
    }
    if s == Bytes4(w) + rest {
      FirstFour(Bytes4(w), rest);
    }
  }

  lemma FirstFour(four: seq<byte>, rest: seq<byte>)
    requires |four| == 4
    ensures Word4(four + rest) == Word4(four) && (four + rest)[4..] == rest
  {
  }

  /** get_ssh_string undoes put_string, and accepts nothing else. */
  lemma StringIff(s: seq<byte>, str: seq<byte>, rest: seq<byte>)
    ensures TakeString(s) == Some((str, rest)) <==> |str| < TWO32 && s == Str(str) + rest
  {
    hide Word4, Bytes4;
    if TakeString(s) == Some((str, rest)) {
      BytesOfWord(s);
      assert s == s[..4] + s[4..4 + |str|] + s[4 + |str|..];
    }
    if |str| < TWO32 && s == Str(str) + rest {
      FirstFour(Bytes4(|str|), str + rest);
      WordSum(|str|);
      assert s == Bytes4(|str|) + (str + rest);
    }
  }

  lemma {:induction false} StringsIff(n: nat, s: seq<byte>, pieces: seq<seq<byte>>, rest: seq<byte>)
    ensures TakeStrings(n, s) == Some((pieces, rest)) <==>
            |pieces| == n && (forall i :: 0 <= i < n ==> |pieces[i]| < TWO32) && s == Strs(pieces) + rest
    decreases n
  {
    hide TakeString, Str;
    if n == 0 {
      assert |pieces| == 0 ==> Strs(pieces) + rest == rest;
    } else {
      var first := TakeString(s);
      if first.Some? {
        StringIff(s, first.value.0, first.value.1);
        var others := TakeStrings(n - 1, first.value.1);
        if others.Some? {
          StringsIff(n - 1, first.value.1, others.value.0, others.value.1);
          var all := [first.value.0] + others.value.0;
          assert all[1..] == others.value.0;
          assert Str(first.value.0) + (Strs(others.value.0) + others.value.1) == Strs(all) + others.value.1;
        }
      }
      if |pieces| == n && (forall i :: 0 <= i < n ==> |pieces[i]| < TWO32) && s == Strs(pieces) + rest {
        var tail := Strs(pieces[1..]) + rest;
        assert s == Str(pieces[0]) + tail;
        StringIff(s, pieces[0], tail);
        StringsIff(n - 1, tail, pieces[1..], rest);
        assert [pieces[0]] + pieces[1..] == pieces;
      }
    }
  }

  lemma SliceOfSlice(b: seq<byte>, at: nat, n: nat, i: nat, j: nat)
    requires at + n <= |b| && i <= j <= n
    ensures b[at..at + n][i..j] == b[at + i..at + j]
  {
    var x, y := b[at..at + n][i..j], b[at + i..at + j];
    forall k | 0 <= k < |x| ensures x[k] == y[k] {
      assert b[at..at + n][i + k] == b[at + (i + k)];
    }
  }

  /** A data pointer and the length left, as get_ssh_string and get_ssh_uint32 move them. */
  class Cursor {
    const buf: seq<byte>
    var data: nat
    var datalen: nat

    ghost predicate Valid()
      reads this
    {
      data + datalen <= |buf|
    }

    ghost function Rest(): seq<byte>
      requires Valid()
      reads this
    {
      buf[data..data + datalen]
    }

    constructor (buf: seq<byte>)
      ensures Valid() && Rest() == buf && this.buf == buf
    {
      this.buf, data, datalen := buf, 0, |buf|;
    }

    method GetUint32() returns (w: Option<uint32>)
      requires Valid()
      modifies this
      ensures Valid() && (w.None? ==> TakeUint32(old(Rest())).None? && Rest() == old(Rest()))
      ensures w.Some? ==> TakeUint32(old(Rest())) == Some((w.value, Rest()))
    {
      if datalen < 4 {
        return None;
      }
      w := Some(Word4(buf[data..data + 4]));
      datalen := datalen - 4;
      data := data + 4;
      assert old(Rest())[4..] == Rest();
    }

    method GetString() returns (s: Option<seq<byte>>)
      requires Valid()
      modifies this
      ensures Valid() && (s.None? ==> TakeString(old(Rest())).None? && Rest() == old(Rest()))
      ensures s.Some? ==> TakeString(old(Rest())) == Some((s.value, Rest()))
      ensures data >= old(data) && data + datalen == old(data + datalen)
    {
      if datalen < 4 {
        return None;
      }
      var len: nat := Word4(buf[data..data + 4]);
      assert len == Word4(Rest());
      if datalen - 4 < len {
        return None;
      }
      s := Some(buf[data + 4..data + 4 + len]);
      SliceOfSlice(buf, data, datalen, 4, 4 + len);
      SliceOfSlice(buf, data, datalen, 4 + len, datalen);
      assert Rest()[4 + len..] == Rest()[4 + len..datalen];
      datalen := datalen - (len + 4);
      data := data + len + 4;
    }
  }
}
