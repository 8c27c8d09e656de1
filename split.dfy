// string_split: the destructive, in-place tokenizer used by the dialog
// control channel, and the pure description of the fields it produces.
module Split {

  /** s holds no NUL character. */
  predicate NoNul(s: string)
  {
    forall k :: 0 <= k < |s| ==> s[k] != '\0'
  }

  /** s holds no space character. */
  predicate NoSpace(s: string)
  {
    forall k :: 0 <= k < |s| ==> s[k] != ' '
  }

  /** Index of the first space at or after index from, or -1 when there is
      none: the search strchr(s, ' ') makes. */
  function SpaceFrom(s: string, from: int): (i: int)
    requires 0 <= from <= |s|
    ensures i == -1 || from <= i < |s|
    decreases |s| - from
  {
    if from == |s| then -1 else if s[from] == ' ' then from else SpaceFrom(s, from + 1)
  }

  /** SpaceFrom finds the first space: none before the index it returns,
      and none at all when it returns -1. */
  lemma {:induction false} SpaceFromIsFirst(s: string, from: int)
    requires 0 <= from <= |s|
    ensures var i := SpaceFrom(s, from);
      && (i == -1 ==> forall j :: from <= j < |s| ==> s[j] != ' ')
      && (i != -1 ==> s[i] == ' ' && forall j :: from <= j < i ==> s[j] != ' ')
    decreases |s| - from
  {
    if from < |s| && s[from] != ' ' {
      SpaceFromIsFirst(s, from + 1);
    }
  }

  /** The fields string_split produces from s[from..]: the text is cut at
      its first maxfields - 1 spaces, and the last field is the rest,
      spaces and all. */
  function SplitFrom(s: string, from: int, maxfields: int): (fields: seq<string>)
    requires 0 <= from <= |s|
    ensures |fields| >= 1
    decreases |s| - from
  {
    var i := SpaceFrom(s, from);
    if maxfields <= 1 || i == -1 then [s[from..]]
    else [s[from..i]] + SplitFrom(s, i + 1, maxfields - 1)
  }

  /** The fields string_split produces from s. */
  function SplitFields(s: string, maxfields: int): (fields: seq<string>)
    ensures |fields| >= 1
  {
    SplitFrom(s, 0, maxfields)
  }

  /** The fields put back together, one space between neighbours. */
  function Join(fields: seq<string>): (s: string)
    requires |fields| >= 1
  {
    if |fields| == 1 then fields[0] else fields[0] + " " + Join(fields[1..])
  }

  lemma SpaceFromAt(s: string, from: int, p: int)
    requires 0 <= from <= p < |s| && s[p] == ' '
    requires forall j :: from <= j < p ==> s[j] != ' '
    ensures SpaceFrom(s, from) == p
  {
    SpaceFromIsFirst(s, from);
  }

  lemma SpaceFromNone(s: string, from: int)
    requires 0 <= from <= |s|
    requires forall j :: from <= j < |s| ==> s[j] != ' '
    ensures SpaceFrom(s, from) == -1
  {
    SpaceFromIsFirst(s, from);
  }

  lemma CutAround(s: string, from: int, i: int)
    requires 0 <= from <= i < |s| && s[i] == ' '
    ensures s[from..] == s[from..i] + " " + s[i + 1..]
  {
    assert s[from..] == s[from..i] + s[i..];
    assert s[i..] == [s[i]] + s[i + 1..];
  }

  lemma SpaceFreeSlice(s: string, from: int, to: int)
    requires 0 <= from <= to <= |s|
    requires forall j :: from <= j < to ==> s[j] != ' '
    ensures NoSpace(s[from..to])
  {
    assert forall k :: 0 <= k < to - from ==> s[from..to][k] == s[from + k];
  }

  /** The two ways SplitFrom unfolds. */
  lemma SplitFromCut(s: string, from: int, maxfields: int, i: int)
    requires 0 <= from <= |s| && maxfields > 1 && i == SpaceFrom(s, from) && i != -1
    ensures SplitFrom(s, from, maxfields) == [s[from..i]] + SplitFrom(s, i + 1, maxfields - 1)
  {
  }

  lemma SplitFromRest(s: string, from: int, maxfields: int)
    requires 0 <= from <= |s| && (maxfields <= 1 || SpaceFrom(s, from) == -1)
    ensures SplitFrom(s, from, maxfields) == [s[from..]]
  {
  }

  lemma ConsIndex<T>(x: T, rest: seq<T>)
    ensures |[x] + rest| == |rest| + 1 && ([x] + rest)[0] == x
    ensures forall k :: 1 <= k <= |rest| ==> ([x] + rest)[k] == rest[k - 1]
  {
  }

  lemma JoinCons(x: string, rest: seq<string>)
    requires |rest| >= 1
    ensures Join([x] + rest) == x + " " + Join(rest)
  {
    assert ([x] + rest)[1..] == rest;
  }

  lemma SpaceFreeSuffix(s: string, from: int)
    requires 0 <= from <= |s|
    requires forall j :: from <= j < |s| ==> s[j] != ' '
    ensures NoSpace(s[from..])
  {
    var u := s[from..];
    assert forall k :: 0 <= k < |u| ==> u[k] == s[from + k];
  }

  lemma LastOfCons<T>(x: T, rest: seq<T>)
    requires |rest| >= 1
    ensures ([x] + rest)[|[x] + rest| - 1] == rest[|rest| - 1]
  {
  }

  /** At most maxfields fields. */
  lemma {:induction false} SplitFromAtMost(s: string, from: int, maxfields: int)
    requires 0 <= from <= |s| && maxfields >= 1
    ensures |SplitFrom(s, from, maxfields)| <= maxfields
    decreases |s| - from
  {
    var i := SpaceFrom(s, from);
    if maxfields > 1 && i != -1 {
      SplitFromCut(s, from, maxfields, i);
      SplitFromAtMost(s, i + 1, maxfields - 1);
    } else {
      SplitFromRest(s, from, maxfields);
    }
  }

  /** Fewer than maxfields fields only when the last one has no space left
      to cut at. */
  lemma {:induction false} SplitFromLastSpaceFree(s: string, from: int, maxfields: int)
    requires 0 <= from <= |s|
    ensures var f := SplitFrom(s, from, maxfields);
      |f| < maxfields ==> NoSpace(f[|f| - 1])
    decreases |s| - from
  {
    var i := SpaceFrom(s, from);
    var f := SplitFrom(s, from, maxfields);
    if maxfields > 1 && i != -1 {
      var x := s[from..i];
      var rest := SplitFrom(s, i + 1, maxfields - 1);
      SplitFromCut(s, from, maxfields, i);
      SplitFromLastSpaceFree(s, i + 1, maxfields - 1);
      LastOfCons(x, rest);
      assert |f| == |rest| + 1 && f[|f| - 1] == rest[|rest| - 1];
    } else {
      SplitFromRest(s, from, maxfields);
      assert f == [s[from..]];
      if maxfields > 1 {
        SpaceFromIsFirst(s, from);
        SpaceFreeSuffix(s, from);
      }
    }
  }

  /** Joining the fields with single spaces gives back the text. */
  lemma {:induction false} SplitFromJoin(s: string, from: int, maxfields: int)
    requires 0 <= from <= |s|
    ensures Join(SplitFrom(s, from, maxfields)) == s[from..]
    decreases |s| - from
  {
    var i := SpaceFrom(s, from);
    if maxfields > 1 && i != -1 {
      SpaceFromIsFirst(s, from);
      SplitFromCut(s, from, maxfields, i);
      SplitFromJoin(s, i + 1, maxfields - 1);
      JoinCons(s[from..i], SplitFrom(s, i + 1, maxfields - 1));
      CutAround(s, from, i);
    } else {
      SplitFromRest(s, from, maxfields);
    }
  }

  /** Every field but the last is free of spaces. */
  lemma {:induction false} SplitFromSpaceFree(s: string, from: int, maxfields: int)
    requires 0 <= from <= |s|
    ensures var f := SplitFrom(s, from, maxfields);
      forall k :: 0 <= k < |f| - 1 ==> NoSpace(f[k])
    decreases |s| - from
  {
    var i := SpaceFrom(s, from);
    if maxfields > 1 && i != -1 {
      SpaceFromIsFirst(s, from);
      SplitFromCut(s, from, maxfields, i);
      var rest := SplitFrom(s, i + 1, maxfields - 1);
      SplitFromSpaceFree(s, i + 1, maxfields - 1);
      SpaceFreeSlice(s, from, i);
      ConsIndex(s[from..i], rest);
    } else {
      SplitFromRest(s, from, maxfields);
    }
  }

  lemma SplitFieldsShape(s: string, maxfields: int)
    requires maxfields >= 1
    ensures var f := SplitFields(s, maxfields);
      && 1 <= |f| <= maxfields
      && Join(f) == s
      && (forall k :: 0 <= k < |f| - 1 ==> NoSpace(f[k]))
      && (|f| < maxfields ==> NoSpace(f[|f| - 1]))
  {
    SplitFromAtMost(s, 0, maxfields);
    SplitFromLastSpaceFree(s, 0, maxfields);
    SplitFromJoin(s, 0, maxfields);
    SplitFromSpaceFree(s, 0, maxfields);
    assert s[0..] == s;
  }

  lemma NoNulSlice(s: string, a: int, b: int)
    requires 0 <= a <= b <= |s| && NoNul(s)
    ensures NoNul(s[a..b])
  {
    var u := s[a..b];
    assert forall k :: 0 <= k < |u| ==> u[k] == s[a + k];
  }

  lemma NoNulSuffix(s: string, a: int)
    requires 0 <= a <= |s| && NoNul(s)
    ensures NoNul(s[a..])
  {
    var u := s[a..];
    assert forall k :: 0 <= k < |u| ==> u[k] == s[a + k];
  }

  /** Cutting a string without NULs gives fields without NULs. */
  lemma {:induction false} SplitFromNoNul(s: string, from: int, maxfields: int)
    requires 0 <= from <= |s| && NoNul(s)
    ensures var f := SplitFrom(s, from, maxfields);
      forall k :: 0 <= k < |f| ==> NoNul(f[k])
    decreases |s| - from
  {
    var i := SpaceFrom(s, from);
    if maxfields > 1 && i != -1 {
      SplitFromCut(s, from, maxfields, i);
      var rest := SplitFrom(s, i + 1, maxfields - 1);
      SplitFromNoNul(s, i + 1, maxfields - 1);
      NoNulSlice(s, from, i);
      ConsIndex(s[from..i], rest);
    } else {
      SplitFromRest(s, from, maxfields);
      NoNulSuffix(s, from);
    }
  }

  lemma SplitFieldsNoNul(s: string, maxfields: int)
    requires NoNul(s)
    ensures forall k :: 0 <= k < |SplitFields(s, maxfields)| ==> NoNul(SplitFields(s, maxfields)[k])
  {
    SplitFromNoNul(s, 0, maxfields);
    assert SplitFields(s, maxfields) == SplitFrom(s, 0, maxfields);
  }

  /** t is the tail of s from index off. */
  predicate TailAt(s: string, off: int, t: string)
  {
    0 <= off && off + |t| == |s| && forall j :: 0 <= j < |t| ==> s[off + j] == t[j]
  }

  /** The search from index off + from of s is the search from from of its
      tail t at off, shifted by off. */
  lemma SpaceFromShift(s: string, off: int, t: string, from: int)
    requires TailAt(s, off, t) && 0 <= from <= |t|
    ensures var i := SpaceFrom(t, from);
      SpaceFrom(s, off + from) == (if i == -1 then -1 else off + i)
  {
    var i := SpaceFrom(t, from);
    SpaceFromIsFirst(t, from);
    if i == -1 {
      assert forall j :: off + from <= j < |s| ==> s[j] == t[j - off];
      SpaceFromNone(s, off + from);
    } else {
      assert forall j :: off + from <= j < off + i ==> s[j] == t[j - off];
      assert s[off + i] == t[i];
      SpaceFromAt(s, off + from, off + i);
    }
  }

  lemma TailSlice(s: string, off: int, t: string, a: int, b: int)
    requires TailAt(s, off, t) && 0 <= a <= b <= |t|
    ensures s[off + a..off + b] == t[a..b]
  {
    var u := s[off + a..off + b];
    assert forall k :: 0 <= k < |u| ==> u[k] == t[a + k];
  }

  lemma TailSuffix(s: string, off: int, t: string, a: int)
    requires TailAt(s, off, t) && 0 <= a <= |t|
    ensures s[off + a..] == t[a..]
  {
    var u := s[off + a..];
    assert forall k :: 0 <= k < |u| ==> u[k] == t[a + k];
  }

  /** Cutting s from index off + from is cutting its tail t at off from from. */
  lemma {:induction false} SplitFromShift(s: string, off: int, t: string, from: int, maxfields: int)
    requires TailAt(s, off, t) && 0 <= from <= |t|
    ensures SplitFrom(s, off + from, maxfields) == SplitFrom(t, from, maxfields)
    decreases |t| - from
  {
    SpaceFromShift(s, off, t, from);
    var i := SpaceFrom(t, from);
    if maxfields > 1 && i != -1 {
      SplitFromCut(s, off + from, maxfields, off + i);
      SplitFromCut(t, from, maxfields, i);
      SplitFromShift(s, off, t, i + 1, maxfields - 1);
      TailSlice(s, off, t, from, i);
    } else {
      SplitFromRest(s, off + from, maxfields);
      SplitFromRest(t, from, maxfields);
      TailSuffix(s, off, t, from);
    }
  }

  /** The C string that starts at index start of a buffer is str: its
      characters, then the terminating NUL. */
  predicate CStringAt(a: seq<char>, start: int, str: string)
  {
    0 <= start && start + |str| < |a| && a[start..start + |str|] == str && a[start + |str|] == '\0'
  }

  /** strchr(s, ' ') on the C string that starts at from and ends at the
      NUL at index len: the index of the first space, or -1 for NULL. */
  method StrChrSpace(buf: array<char>, from: int, len: int) returns (p: int)
    requires 0 <= from <= len < buf.Length && buf[len] == '\0'
    requires forall j :: from <= j < len ==> buf[j] != '\0'
    ensures p == -1 <==> forall j :: from <= j < len ==> buf[j] != ' '
    ensures p != -1 ==> from <= p < len && buf[p] == ' '
    ensures p != -1 ==> forall j :: from <= j < p ==> buf[j] != ' '
  {
    p := from;
    while buf[p] != ' ' && buf[p] != '\0'
      invariant from <= p <= len
      invariant forall j :: from <= j < p ==> buf[j] != ' '
      decreases len - p
    {
      p := p + 1;
    }
    if buf[p] == '\0' {
      p := -1;
    }
  }

  /** Each recorded start holds its field as a C string ending before pos. */
  ghost predicate FieldsBefore(a: seq<char>, fields: seq<int>, done: seq<string>, pos: int)
  {
    |fields| == |done| &&
    forall k :: 0 <= k < |fields| ==> fields[k] + |done[k]| < pos && CStringAt(a, fields[k], done[k])
  }

  lemma FieldsBeforeKept(a: seq<char>, b: seq<char>, fields: seq<int>, done: seq<string>, pos: int)
    requires FieldsBefore(a, fields, done, pos)
    requires |a| == |b| && forall j :: 0 <= j < pos && j < |a| ==> a[j] == b[j]
    ensures FieldsBefore(b, fields, done, pos)
  {
    forall k | 0 <= k < |fields|
      ensures CStringAt(b, fields[k], done[k])
    {
      assert a[fields[k]..fields[k] + |done[k]|] == b[fields[k]..fields[k] + |done[k]|];
    }
  }

  /** The state of string_split's loop: the buffer a agrees with the
      original string s0 from pos up to its NUL at len, the fields found so
      far are in place before pos, and cutting the rest into m fields gives
      the fields still to come. */
  ghost predicate SplitLoop(a: seq<char>, s0: string, whole: seq<string>, done: seq<string>,
                            fields: seq<int>, pos: int, len: int, m: int)
  {
    && 0 <= pos <= len == |s0| < |a|
    && a[len] == '\0'
    && (forall j :: pos <= j < len ==> a[j] == s0[j])
    && whole == done + SplitFrom(s0, pos, m)
    && FieldsBefore(a, fields, done, pos)
  }

  /** One turn of the loop: the space at p closes the field that starts at
      pos, and becomes its NUL. */
  lemma SplitLoopStep(a: seq<char>, s0: string, whole: seq<string>, done: seq<string>,
                      fields: seq<int>, pos: int, len: int, m: int, p: int,
                      b: seq<char>, done': seq<string>, fields': seq<int>, pos': int, m': int)
    requires SplitLoop(a, s0, whole, done, fields, pos, len, m)
    requires m > 1 && pos <= p < len && a[p] == ' '
    requires forall j :: pos <= j < p ==> a[j] != ' '
    requires NoNul(s0)
    requires b == a[p := '\0'] && done' == done + [s0[pos..p]] && fields' == fields + [pos]
    requires pos' == p + 1 && m' == m - 1
    ensures SplitLoop(b, s0, whole, done', fields', pos', len, m')
  {
    assert whole == done' + SplitFrom(s0, pos', m') by {
      SpaceFromAt(s0, pos, p);
      SplitFromCut(s0, pos, m, p);
      assert done + ([s0[pos..p]] + SplitFrom(s0, p + 1, m - 1))
        == (done + [s0[pos..p]]) + SplitFrom(s0, p + 1, m - 1);
    }
    assert FieldsBefore(b, fields', done', pos') by {
      FieldsBeforeKept(a, b, fields, done, pos);
      assert b[pos..p] == s0[pos..p];
      assert CStringAt(b, pos, s0[pos..p]);
    }
  }

  /** The loop has ended: the remainder at pos is the last field. */
  lemma SplitLoopEnd(a: seq<char>, s0: string, whole: seq<string>, done: seq<string>,
                     fields: seq<int>, pos: int, len: int, m: int)
    requires SplitLoop(a, s0, whole, done, fields, pos, len, m)
    requires m <= 1 || forall j :: pos <= j < len ==> a[j] != ' '
    ensures whole == done + [s0[pos..]]
    ensures FieldsBefore(a, fields + [pos], done + [s0[pos..]], len + 1)
  {
    if m > 1 {
      SpaceFromNone(s0, pos);
    }
    SplitFromRest(s0, pos, m);
    assert a[pos..len] == s0[pos..];
  }

  /** after differs from before only where a space became a NUL. */
  ghost predicate SpacesNulled(before: seq<char>, after: seq<char>)
  {
    |before| == |after|
    && forall j :: 0 <= j < |after| && after[j] != before[j] ==> before[j] == ' ' && after[j] == '\0'
  }

  lemma SpacesNulledStep(orig: seq<char>, a: seq<char>, p: int, b: seq<char>)
    requires SpacesNulled(orig, a) && 0 <= p < |a| && a[p] == ' ' && b == a[p := '\0']
    ensures SpacesNulled(orig, b)
  {
  }

  /** Where field k starts when fields are laid out back to back from
      index 0, each followed by one separator. */
  function Offset(fs: seq<string>, k: nat): (off: int)
    requires k <= |fs|
  {
    if k == 0 then 0 else Offset(fs, k - 1) + |fs[k - 1]| + 1
  }

  /** The given starts are those of fs laid out back to back: the first
      is 0 and each later one is one past the end of the field before it. */
  ghost predicate Packed(starts: seq<int>, fs: seq<string>)
  {
    |starts| <= |fs| + 1 && forall k :: 0 <= k < |starts| ==> starts[k] == Offset(fs, k)
  }

  lemma {:induction false} OffsetSnoc(fs: seq<string>, x: string, k: nat)
    requires k <= |fs|
    ensures Offset(fs + [x], k) == Offset(fs, k)
  {
    if k > 0 {
      OffsetSnoc(fs, x, k - 1);
      assert (fs + [x])[k - 1] == fs[k - 1];
    }
  }

  lemma PackedStep(starts: seq<int>, fs: seq<string>, x: string)
    requires Packed(starts, fs) && |starts| == |fs| + 1
    ensures Packed(starts + [starts[|starts| - 1] + |x| + 1], fs + [x])
  {
    forall k | 0 <= k <= |fs|
      ensures Offset(fs + [x], k) == Offset(fs, k)
    {
      OffsetSnoc(fs, x, k);
    }
    assert (fs + [x])[|fs|] == x;
  }

  lemma PackedExtend(starts: seq<int>, fs: seq<string>, x: string)
    requires Packed(starts, fs)
    ensures Packed(starts, fs + [x])
  {
    forall k | 0 <= k < |starts|
      ensures Offset(fs + [x], k) == Offset(fs, k)
    {
      OffsetSnoc(fs, x, k);
    }
  }

  /** Packed starts, spelled out: the first field starts at 0 and each
      later one just past the separator that ends the field before it. */
  lemma PackedAdjacent(starts: seq<int>, fs: seq<string>)
    requires Packed(starts, fs) && |starts| >= 1
    ensures starts[0] == 0
    ensures forall k :: 0 < k < |starts| ==> starts[k] == starts[k - 1] + |fs[k - 1]| + 1
  {
  }

  /** Everything string_split's loop keeps: the loop state proper, the
      layout of the fields found so far and of the next one at pos, and
      the buffer changed only at their separators, each once a space. */
  ghost predicate SplitState(orig: seq<char>, a: seq<char>, s0: string, whole: seq<string>,
                             done: seq<string>, fields: seq<int>, pos: int, len: int, m: int)
  {
    && SplitLoop(a, s0, whole, done, fields, pos, len, m)
    && SpacesNulled(orig, a)
    && Packed(fields + [pos], done)
  }

  lemma SplitStateStep(orig: seq<char>, a: seq<char>, s0: string, whole: seq<string>,
                       done: seq<string>, fields: seq<int>, pos: int, len: int, m: int, p: int,
                       b: seq<char>, done': seq<string>, fields': seq<int>, pos': int, m': int)
    requires SplitState(orig, a, s0, whole, done, fields, pos, len, m)
    requires m > 1 && pos <= p < len && a[p] == ' '
    requires forall j :: pos <= j < p ==> a[j] != ' '
    requires NoNul(s0)
    requires b == a[p := '\0'] && done' == done + [s0[pos..p]] && fields' == fields + [pos]
    requires pos' == p + 1 && m' == m - 1
    ensures SplitState(orig, b, s0, whole, done', fields', pos', len, m')
  {
    SpacesNulledStep(orig, a, p, b);
    var starts := fields + [pos];
    PackedStep(starts, done, s0[pos..p]);
    SplitLoopStep(a, s0, whole, done, fields, pos, len, m, p, b, done + [s0[pos..p]], starts, p + 1, m - 1);
  }

  /** The loop has ended: with the remainder at pos as the last field, the
      fields are all of whole, in place, laid out back to back. */
  lemma SplitStateEnd(orig: seq<char>, a: seq<char>, s0: string, whole: seq<string>,
                      done: seq<string>, fields: seq<int>, pos: int, len: int, m: int)
    requires SplitState(orig, a, s0, whole, done, fields, pos, len, m)
    requires m <= 1 || forall j :: pos <= j < len ==> a[j] != ' '
    ensures var starts := fields + [pos];
      && whole == done + [s0[pos..]]
      && |starts| == |whole|
      && (forall k :: 0 <= k < |starts| ==> CStringAt(a, starts[k], whole[k]))
      && Packed(starts, whole)
      && SpacesNulled(orig, a)
  {
    SplitLoopEnd(a, s0, whole, done, fields, pos, len, m);
    PackedExtend(fields + [pos], done, s0[pos..]);
  }

  /** The loop of string_split: cuts off fields while more than one may
      still come and a space is left, and returns the fields found so far
      and where the rest starts. */
  method CutSeparators(buf: array<char>, len: int, maxfields: int, ghost s0: string, ghost whole: seq<string>)
      returns (n: int, fields: seq<int>, pos: int, ghost done: seq<string>)
    requires 0 <= len < buf.Length && buf[len] == '\0' && s0 == buf[..len] && NoNul(s0)
    requires maxfields >= 1 && whole == SplitFrom(s0, 0, maxfields)
    modifies buf
    ensures 0 <= n < maxfields && |fields| == n
    ensures SplitState(old(buf[..]), buf[..], s0, whole, done, fields, pos, len, maxfields - n)
    ensures forall j :: 0 <= j < buf.Length && buf[j] != old(buf[j]) ==> j + 1 in fields + [pos]
    ensures maxfields - n <= 1 || forall j :: pos <= j < len ==> buf[..][j] != ' '
  {
    ghost var orig := buf[..];
    ghost var a := orig;
    done := [];
    ghost var seps: set<int> := {};
    pos := 0;
    n := 0;
    fields := [];
    while n + 1 < maxfields
      invariant 0 <= n < maxfields && |fields| == n
      invariant buf[..] == a
      invariant forall q :: q in seps ==> q + 1 in fields + [pos]
      invariant forall j :: 0 <= j < |a| ==> a[j] == if j in seps then '\0' else orig[j]
      invariant SplitState(orig, a, s0, whole, done, fields, pos, len, maxfields - n)
    {
      var p := StrChrSpace(buf, pos, len);
      if p == -1 {
        return;
      }
      ghost var a0, done0, fields0, pos0, m0 := a, done, fields, pos, maxfields - n;
      buf[p] := '\0';
      a := a[p := '\0'];
      seps := seps + {p};
      done := done + [s0[pos..p]];
      fields := fields + [pos];
      n := n + 1;
      pos := p + 1;
      SplitStateStep(orig, a0, s0, whole, done0, fields0, pos0, len, m0, p,
                     a, done, fields, pos, maxfields - n);
    }
  }

  /** string_split(s, fields, maxfields): overwrites the separating spaces
      with NULs and returns where each field starts: the first at the start
      of the buffer, each later one just past the NUL that closed the one
      before. Only those separators change. */
  method StringSplit(buf: array<char>, len: int, maxfields: int) returns (n: int, fields: seq<int>)
    requires 0 <= len < buf.Length && buf[len] == '\0' && NoNul(buf[..len])
    requires maxfields >= 1
    modifies buf
    ensures var f := SplitFields(old(buf[..len]), maxfields);
      && n == |fields| == |f|
      && (forall k :: 0 <= k < n ==> CStringAt(buf[..], fields[k], f[k]))
      && Packed(fields, f)
    ensures forall j :: 0 <= j < buf.Length && buf[j] != old(buf[j]) ==> j + 1 in fields
    ensures SpacesNulled(old(buf[..]), buf[..])
  {
    ghost var s0 := buf[..len];
    ghost var whole := SplitFrom(s0, 0, maxfields);
    var pos;
    ghost var done;
    n, fields, pos, done := CutSeparators(buf, len, maxfields, s0, whole);
    SplitStateEnd(old(buf[..]), buf[..], s0, whole, done, fields, pos, len, maxfields - n);
    fields := fields + [pos];
    n := n + 1;
  }
}
