// canonicalBody truncates the caller's slice and appends to it, so it writes
// into the message buffer that all queue entries of a message share. A Go
// slice is an array with an offset, a length and a capacity.
module SharedBuffer {
  import opened Text
  import opened Headers
  import opened Body

  datatype Slice = Slice(arr: array<char>, off: nat, len: nat, cap: nat) {
    predicate Fits() {
      off + cap <= arr.Length && len <= cap
    }

    function View(): string
      requires Fits()
      reads arr
    {
      arr[off..off + len]
    }
  }

  // v with a line break written at k, as far as k and k + 1 are visible.
  function Overwrite(v: string, k: nat): (r: string)
    ensures |r| == |v|
  {
    seq(|v|, i requires 0 <= i < |v| => if i == k then '\r' else if i == k + 1 then '\n' else v[i])
  }

  // What the owner of the buffer sees of a body after simple mode has run on
  // it, spare being the capacity left behind it.
  function AfterSimple(v: string, spare: nat): (r: string)
    ensures |r| == |v|
  {
    if v == "" || Keep(v) + 2 > |v| + spare then v else Overwrite(v, Keep(v))
  }

  function AfterCanonical(v: string, spare: nat, relaxed: bool): (r: string)
    ensures |r| == |v|
  {
    if relaxed then v else AfterSimple(v, spare)
  }

  // ReplaceAll and []byte(...): a slice over a new array.
  method NewSlice(s: string) returns (out: Slice)
    ensures out.Fits() && out.View() == s && fresh(out.arr) && out.cap == out.len
  {
    var arr := new char[|s|](i requires 0 <= i < |s| => s[i]);
    out := Slice(arr, 0, |s|, |s|);
    assert out.View() == s;
  }

  // A line break written into an array.
  function Written(content: seq<char>, i: nat): seq<char>
    requires i + 2 <= |content|
  {
    content[i := '\r'][i + 1 := '\n']
  }

  // append(s, '\r', '\n'): in place if the capacity allows it.
  method AppendCrlf(s: Slice) returns (out: Slice)
    requires s.Fits()
    modifies s.arr
    ensures out.Fits() && out.View() == old(s.View()) + CRLF
    ensures s.len + 2 <= s.cap ==>
              out == s.(len := s.len + 2) && s.arr[..] == Written(old(s.arr[..]), s.off + s.len)
    ensures s.len + 2 > s.cap ==> fresh(out.arr) && s.arr[..] == old(s.arr[..])
  {
    if s.len + 2 <= s.cap {
      s.arr[s.off + s.len] := '\r';
      s.arr[s.off + s.len + 1] := '\n';
      out := s.(len := s.len + 2);
      assert out.View() == old(s.View()) + CRLF;
    } else {
      out := NewSlice(s.View() + CRLF);
    }
  }

  // The backward loop: it stops at the last byte outside {CR, LF, SP}.
  method Truncate(body: Slice) returns (out: Slice)
    requires body.Fits()
    ensures out == body.(len := Keep(body.View()))
  {
    ghost var v := body.View();
    var i := body.len;
    assert v[..i] == v;
    TrimRightParts(v, TRAILING);
    while i > 0
      invariant 0 <= i <= body.len
      invariant Core(v) == TrimRight(v[..i], TRAILING)
    {
      assert v[..i][..i - 1] == v[..i - 1];
      var c := body.arr[body.off + i - 1];
      if c != '\r' && c != '\n' && c != ' ' {
        return body.(len := i);
      }
      i := i - 1;
    }
    return body;
  }

  lemma VisibleAfter(content: seq<char>, body: Slice, after: seq<char>)
    requires body.off + body.cap <= |content| && body.len <= body.cap && body.len > 0
    requires var k := Keep(content[body.off..body.off + body.len]);
             after == if k + 2 <= body.cap then Written(content, body.off + k) else content
    ensures after[body.off..body.off + body.len]
            == AfterSimple(content[body.off..body.off + body.len], body.cap - body.len)
  {
  }

  method SimpleInPlace(body: Slice) returns (out: Slice)
    requires body.Fits() && body.len > 0
    modifies body.arr
    ensures out.Fits() && out.View() == SimpleBody(old(body.View()))
    ensures body.View() == AfterSimple(old(body.View()), body.cap - body.len)
    ensures var k := Keep(old(body.View()));
            body.arr[..] == if k + 2 <= body.cap then Written(old(body.arr[..]), body.off + k)
                            else old(body.arr[..])
  {
    ghost var content := body.arr[..];
    var cut := Truncate(body);
    assert body.View() == content[body.off..body.off + body.len];
    assert cut.View() == body.View()[..Keep(body.View())];
    out := AppendCrlf(cut);
    VisibleAfter(content, body, body.arr[..]);
    assert body.View() == body.arr[..][body.off..body.off + body.len];
  }

  // canonicalBody: the canonical bytes, and what is left in the caller's array.
  method CanonicalBodyInPlace(body: Slice, relaxed: bool) returns (out: Slice)
    requires body.Fits()
    modifies body.arr
    ensures out.Fits() && out.View() == CanonicalBody(old(body.View()), relaxed)
    ensures body.View() == AfterCanonical(old(body.View()), body.cap - body.len, relaxed)
    ensures var kept := body.off + Keep(old(body.View()));
            forall k :: 0 <= k < body.arr.Length && !(kept <= k < kept + 2) ==> body.arr[k] == old(body.arr[..])[k]
    ensures relaxed ==> body.arr[..] == old(body.arr[..])
  {
    if relaxed {
      if body.len == 0 {
        out := NewSlice("");
        return;
      }
      var squeezed := NewSlice(Squeezed(body.View()));
      var cut := Truncate(squeezed);
      assert cut.View() == squeezed.View()[..Keep(squeezed.View())];
      out := AppendCrlf(cut);
    } else {
      if body.len == 0 {
        out := NewSlice(CRLF);
        return;
      }
      out := SimpleInPlace(body);
      assert forall k :: 0 <= k < body.arr.Length ==> body.arr[k] == body.arr[..][k];
    }
  }

  // ----- What the in-place write means for the buffer's other users -----------

  // No byte up to the last one outside {CR, LF, SP} changes, and the visible
  // rest consists of such bytes before and after.
  lemma AfterSimpleKeepsCore(v: string, spare: nat)
    ensures Core(AfterSimple(v, spare)) == Core(v)
    ensures Keep(AfterSimple(v, spare)) == Keep(v)
    ensures AfterSimple(v, spare)[..Keep(v)] == v[..Keep(v)]
  {
    var r := AfterSimple(v, spare);
    TrimRightParts(v, TRAILING);
    if Core(v) == "" {
      assert r == v;
    } else {
      var k := |Core(v)|;
      assert r[..k] == v[..k];
      assert r == r[..k] + r[k..];
      forall i | 0 <= i < |r[k..]|
        ensures r[k..][i] in TRAILING
      {
        assert r[k..][i] == r[k + i];
      }
      TrimRightExact(r[..k], r[k..], TRAILING);
    }
  }

  // Recomputing on the changed buffer gives the same canonical body.
  lemma RecomputeSame(v: string, spare: nat)
    ensures SimpleBody(AfterSimple(v, spare)) == SimpleBody(v)
    ensures AfterSimple(AfterSimple(v, spare), spare) == AfterSimple(v, spare)
  {
    AfterSimpleKeepsCore(v, spare);
  }

  function AfterSignings(v: string, spare: nat, n: nat): string {
    if n == 0 then v else AfterSimple(AfterSignings(v, spare, n - 1), spare)
  }

  // All retries and all sibling entries hash the same body.
  lemma {:induction false} AllSigningsAgree(v: string, spare: nat, n: nat)
    ensures |AfterSignings(v, spare, n)| == |v|
    ensures SimpleBody(AfterSignings(v, spare, n)) == SimpleBody(v)
    ensures n > 0 ==> AfterSignings(v, spare, n) == AfterSimple(v, spare)
  {
    if n > 0 {
      AllSigningsAgree(v, spare, n - 1);
      RecomputeSame(AfterSignings(v, spare, n - 1), spare);
      if n > 1 {
        RecomputeSame(v, spare);
      }
    }
  }

  // No visible byte changes in exactly these cases.
  lemma UnchangedIff(v: string, spare: nat)
    ensures AfterSimple(v, spare) == v <==>
            var tail := v[Keep(v)..];
            v == "" || Keep(v) + 2 > |v| + spare || tail == "" || tail == "\r" || StartsWith(tail, CRLF)
  {
  }
}
