// The dialog control channel: how message_socket_client_event turns one
// message read from a client connection into calls on the UI's dialog.
module Control {
  import opened Keys
  import opened Split

  /** The dialog calls made for the fields of one message: nothing for
      fewer than two fields or a first field other than "dialog". */
  function DialogCalls(fields: seq<string>): (calls: seq<Effect>)
    ensures |calls| <= 1
  {
    if |fields| < 2 || fields[0] != "dialog" then []
    else
      (if fields[1] == "show" && |fields| > 2 then [DialogShowInfo(fields[2])] else [])
      + (if fields[1] == "dismiss" then [DialogDismiss] else [])
  }

  /** The calls made for a message, split into at most three fields. */
  function MessageCalls(msg: string): (calls: seq<Effect>)
  {
    DialogCalls(SplitFields(msg, 3))
  }

  /** "dialog show <message>": the message is everything after the second space. */
  predicate IsShowCommand(msg: string)
  {
    |msg| >= 12 && msg[..12] == "dialog show "
  }

  /** "dialog dismiss", with or without trailing text after a space. */
  predicate IsDismissCommand(msg: string)
  {
    msg == "dialog dismiss" || (|msg| >= 15 && msg[..15] == "dialog dismiss ")
  }

  /** A message is acted on exactly when it is a show or a dismiss command;
      a show passes on everything after the second space, spaces included. */
  lemma MessageCallsCases(msg: string)
    ensures IsShowCommand(msg) ==> MessageCalls(msg) == [DialogShowInfo(msg[12..])]
    ensures IsDismissCommand(msg) ==> MessageCalls(msg) == [DialogDismiss]
    ensures !IsShowCommand(msg) && !IsDismissCommand(msg) ==> MessageCalls(msg) == []
  {
    if IsShowCommand(msg) {
      ShowFields(msg);
      ShowIsNotDismiss(msg);
    } else if IsDismissCommand(msg) {
      DismissFields(msg);
    } else if MessageCalls(msg) != [] {
      CallsNeedCommand(msg);
    }
  }

  lemma ShowIsNotDismiss(msg: string)
    requires IsShowCommand(msg)
    ensures !IsDismissCommand(msg)
  {
    assert msg[7] == msg[..12][7] == 's';
    assert "dialog dismiss"[7] == 'd';
    if |msg| >= 15 {
      assert msg[..15][7] == msg[7];
    }
  }

  /** A word without spaces, a space, then the rest: the word is the first field. */
  lemma SplitAtWord(w: string, rest: string, maxfields: int)
    requires NoSpace(w) && maxfields > 1
    ensures SplitFields(w + " " + rest, maxfields) == [w] + SplitFields(rest, maxfields - 1)
  {
    var s := w + " " + rest;
    assert forall j :: 0 <= j < |w| ==> s[j] == w[j];
    SpaceFromAt(s, 0, |w|);
    assert s[0..|w|] == w;
    assert TailAt(s, |w| + 1, rest);
    SplitFromShift(s, |w| + 1, rest, 0, maxfields - 1);
  }

  lemma ShowFields(msg: string)
    requires IsShowCommand(msg)
    ensures SplitFields(msg, 3) == ["dialog", "show", msg[12..]]
  {
    var m := msg[12..];
    assert msg == "dialog" + " " + ("show" + " " + m);
    SplitAtWord("dialog", "show" + " " + m, 3);
    SplitAtWord("show", m, 2);
  }

  lemma DismissFields(msg: string)
    requires IsDismissCommand(msg)
    ensures var f := SplitFields(msg, 3); |f| >= 2 && f[0] == "dialog" && f[1] == "dismiss"
  {
    if msg == "dialog dismiss" {
      assert msg == "dialog" + " " + "dismiss";
      SplitAtWord("dialog", "dismiss", 3);
      SpaceFromNone("dismiss", 0);
    } else {
      var r := msg[15..];
      assert msg == "dialog" + " " + ("dismiss" + " " + r);
      SplitAtWord("dialog", "dismiss" + " " + r, 3);
      SplitAtWord("dismiss", r, 2);
    }
  }

  lemma CallsNeedCommand(msg: string)
    requires MessageCalls(msg) != []
    ensures IsShowCommand(msg) || IsDismissCommand(msg)
  {
    var f := SplitFields(msg, 3);
    SplitFieldsShape(msg, 3);
    if |f| == 2 {
      JoinTwo(f);
      assert "dialog" + " " + "dismiss" == "dialog dismiss";
    } else {
      JoinThree(f);
      if f[1] == "show" {
        ShowPrefix(f[2]);
      } else {
        DismissPrefix(f[2]);
      }
    }
  }

  lemma JoinTwo(f: seq<string>)
    requires |f| == 2
    ensures Join(f) == f[0] + " " + f[1]
  {
    assert Join(f[1..]) == f[1];
  }

  lemma JoinThree(f: seq<string>)
    requires |f| == 3
    ensures Join(f) == f[0] + " " + (f[1] + " " + f[2])
  {
    assert f[1..][1..] == f[2..];
    assert Join(f[2..]) == f[2];
  }

  lemma ShowPrefix(x: string)
    ensures IsShowCommand("dialog" + " " + ("show" + " " + x))
  {
    var m := "dialog" + " " + ("show" + " " + x);
    assert m == "dialog show " + x;
    assert m[..12] == "dialog show ";
  }

  lemma DismissPrefix(x: string)
    ensures IsDismissCommand("dialog" + " " + ("dismiss" + " " + x))
  {
    var m := "dialog" + " " + ("dismiss" + " " + x);
    assert m == "dialog dismiss " + x;
    assert m[..15] == "dialog dismiss ";
  }

  /** message_socket_client_event: no input pending does nothing; a failed
      or empty read dismisses the dialog and closes the client; otherwise
      the message is split in place and decoded. */
  method MessageSocketClientEvent(pollIn: bool, nread: int, buf: array<char>, len: nat)
    returns (calls: seq<Effect>, closed: bool)
    requires pollIn && nread > 0 ==> len < buf.Length && buf[len] == '\0' && NoNul(buf[..len])
    modifies buf
    ensures !pollIn ==> calls == [] && !closed
    ensures pollIn && nread <= 0 ==> calls == [DialogDismiss] && closed
    ensures pollIn && nread > 0 ==> calls == MessageCalls(old(buf[..len])) && !closed
  {
    calls, closed := [], false;
    if !pollIn {
      return;
    }
    if nread <= 0 {
      calls, closed := [DialogDismiss], true;
      return;
    }
    ghost var msg := buf[..len];
    var nfields, fields := StringSplit(buf, len, 3);
    ghost var f := SplitFields(msg, 3);
    SplitFieldsNoNul(msg, 3);
    if nfields < 2 {
      return;
    }
    var field0 := ReadField(buf, fields[0], f[0]);
    var field1 := ReadField(buf, fields[1], f[1]);
    if field0 == "dialog" {
      if field1 == "show" && nfields > 2 {
        var field2 := ReadField(buf, fields[2], f[2]);
        calls := calls + [DialogShowInfo(field2)];
      }
      if field1 == "dismiss" {
        calls := calls + [DialogDismiss];
      }
    }
  }

  /** Reads back one field that string_split left in the buffer. */
  method ReadField(buf: array<char>, start: nat, ghost field: string) returns (str: string)
    requires CStringAt(buf[..], start, field) && NoNul(field)
    ensures str == field
  {
    assert buf[start..][|field|] == '\0';
    str := CString(buf, start);
    CStringUnique(buf[..], start, str, field);
  }

  lemma CStringUnique(a: seq<char>, start: int, x: string, y: string)
    requires CStringAt(a, start, x) && NoNul(x) && CStringAt(a, start, y) && NoNul(y)
    ensures x == y
  {
    assert forall k :: 0 <= k < |x| ==> x[k] == a[start + k];
    assert forall k :: 0 <= k < |y| ==> y[k] == a[start + k];
    assert a[start + |x|] == '\0' && a[start + |y|] == '\0';
  }

  /** Reads the C string that starts at index start: the characters up to
      the next NUL. */
  method CString(buf: array<char>, start: nat) returns (str: string)
    requires start < buf.Length && '\0' in buf[start..]
    ensures CStringAt(buf[..], start, str) && NoNul(str)
  {
    ghost var e :| start <= e < buf.Length && buf[e] == '\0' by {
      var k :| 0 <= k < |buf[start..]| && buf[start..][k] == '\0';
      assert buf[start + k] == '\0';
    }
    var i := start;
    while buf[i] != '\0'
      invariant start <= i <= e
      invariant forall j :: start <= j < i ==> buf[j] != '\0'
      decreases e - i
    {
      i := i + 1;
    }
    str := buf[start..i];
  }
}
