/** From a line of the tickers file to the eight symbol bytes of a published message. */
module Symbols {
  import opened MarketData
  import opened WireFormat

  // ---------- reading the file ----------

  predicate IsCr(b: Byte) { b == 13 }

  predicate IsLf(b: Byte) { b == 10 }

  /** isspace in the C locale */
  predicate IsSpace(b: Byte) { b == 32 || 9 <= b <= 13 }

  function Without(s: Bytes, drop: Byte -> bool): Bytes {
    if s == [] then []
    else Without(s[..|s| - 1], drop) + if drop(s[|s| - 1]) then [] else [s[|s| - 1]]
  }

  function Strip(line: Bytes): Bytes { Without(line, IsSpace) }

  lemma WithoutLast(s: Bytes, b: Byte, drop: Byte -> bool)
    ensures Without(s + [b], drop) == Without(s, drop) + if drop(b) then [] else [b]
  {
    assert (s + [b])[..|s|] == s;
  }

  /** Erasing carriage returns and line feeds first makes no difference. */
  lemma {:induction false} StripOnce(line: Bytes)
    ensures Without(Without(Without(line, IsCr), IsLf), IsSpace) == Strip(line)
  {
    if line != [] {
      var init, last := line[..|line| - 1], line[|line| - 1];
      StripOnce(init);
      var a := Without(init, IsCr);
      var b := Without(a, IsLf);
      if IsCr(last) {
        assert Without(line, IsCr) == a;
      } else {
        assert Without(line, IsCr) == a + [last];
        WithoutLast(a, last, IsLf);
        WithoutLast(b, last, IsSpace);
        if IsLf(last) {
          assert Without(a + [last], IsLf) == b;
        }
      }
      assert IsSpace(last) ==> Strip(line) == Strip(init);
    }
  }

  lemma {:induction false} StripHasNoSpace(line: Bytes)
    ensures forall b :: b in Strip(line) ==> b in line && !IsSpace(b)
  {
    if line != [] {
      StripHasNoSpace(line[..|line| - 1]);
    }
  }

  /** Space, tab, line feed, vertical tab, form feed and carriage return go; every other byte stays as often as it was. */
  lemma {:induction false} StripKeepsTheRest(line: Bytes, b: Byte)
    ensures b in {32, 9, 10, 11, 12, 13} ==> b !in Strip(line)
    ensures b !in {32, 9, 10, 11, 12, 13} ==> multiset(Strip(line))[b] == multiset(line)[b]
  {
    if line != [] {
      var init, last := line[..|line| - 1], line[|line| - 1];
      StripKeepsTheRest(init, b);
      assert line == init + [last];
    }
  }

  /** std::remove_if on the first n bytes, in place; the new end is returned. */
  method RemoveIf(a: array<Byte>, n: nat, drop: Byte -> bool) returns (end: nat)
    requires n <= a.Length
    modifies a
    ensures end <= n && a[..end] == Without(old(a[..n]), drop)
  {
    end := 0;
    ghost var was, done, kept := a[..n], [], [];
    for i := 0 to n
      invariant |kept| == end <= i && done == was[..i]
      invariant kept == Without(done, drop)
      invariant forall k :: 0 <= k < end ==> a[k] == kept[k]
      invariant forall k :: i <= k < n ==> a[k] == was[k]
    {
      var b := a[i];
      WithoutLast(done, b, drop);
      assert was[..i + 1] == was[..i] + [b];
      done := done + [b];
      if !drop(b) {
        a[end] := b;
        end := end + 1;
        kept := kept + [b];
      }
    }
    assert was[..n] == was;
    assert a[..end] == kept;
  }

  predicate Accepted(name: Bytes) { 0 < |name| < 9 }

  /** The accepted names, in file order. */
  function Tickers(lines: seq<Bytes>): seq<Bytes> {
    if lines == [] then []
    else
      var name := Strip(lines[|lines| - 1]);
      Tickers(lines[..|lines| - 1]) + if Accepted(name) then [name] else []
  }

  lemma TickersSnoc(lines: seq<Bytes>, line: Bytes)
    ensures Tickers(lines + [line]) == Tickers(lines) + if Accepted(Strip(line)) then [Strip(line)] else []
  {
    assert (lines + [line])[..|lines|] == lines;
  }

  method ReadLine(line: Bytes) returns (name: Bytes)
    ensures name == Strip(line)
  {
    var str := new Byte[|line|](i requires 0 <= i < |line| => line[i]);
    assert str[..|line|] == line;
    var n := RemoveIf(str, |line|, IsCr);
    n := RemoveIf(str, n, IsLf);
    n := RemoveIf(str, n, IsSpace);
    StripOnce(line);
    name := str[..n];
  }

  method ReadSymbolsFile(lines: seq<Bytes>) returns (tickers: seq<Bytes>)
    ensures tickers == Tickers(lines)
  {
    tickers := [];
    for i := 0 to |lines|
      invariant tickers == Tickers(lines[..i])
    {
      assert lines[..i + 1] == lines[..i] + [lines[i]];
      TickersSnoc(lines[..i], lines[i]);
      var str := ReadLine(lines[i]);
      if str != [] && |str| < 9 {
        tickers := tickers + [str];
      }
    }
    assert lines[..|lines|] == lines;
  }

  ghost predicate OnSomeLine(lines: seq<Bytes>, name: Bytes) {
    exists i :: 0 <= i < |lines| && Strip(lines[i]) == name
  }

  /** Every ticker is one to eight bytes, none of them white space, and comes from some line; and no such line
      is missed. */
  lemma {:induction false} TickersExactly(lines: seq<Bytes>, name: Bytes)
    ensures name in Tickers(lines) <==> 1 <= |name| <= 8 && OnSomeLine(lines, name)
    ensures name in Tickers(lines) ==> forall b :: b in name ==> !IsSpace(b)
  {
    if lines != [] {
      var init, last := lines[..|lines| - 1], lines[|lines| - 1];
      TickersExactly(init, name);
      StripHasNoSpace(last);
      assert OnSomeLine(lines, name) <==> OnSomeLine(init, name) || Strip(last) == name by {
        if OnSomeLine(init, name) {
          var i :| 0 <= i < |init| && Strip(init[i]) == name;
          assert Strip(lines[i]) == name;
        }
        if OnSomeLine(lines, name) {
          var i :| 0 <= i < |lines| && Strip(lines[i]) == name;
          assert i < |init| ==> Strip(init[i]) == name;
        }
      }
    }
  }

  // ---------- publishing ----------

  predicate NulFree(s: Bytes) { forall i :: 0 <= i < |s| ==> s[i] != 0 }

  /** c_str() as a C function sees it. */
  function CString(s: Bytes): (c: Bytes)
    ensures c <= s && NulFree(c) && (c == s || s[|c|] == 0)
  {
    if s == [] || s[0] == 0 then [] else
      var c := CString(s[1..]);
      [s[0]] + c
  }

  function Prefix(s: Bytes, n: nat): Bytes { if |s| <= n then s else s[..n] }

  /** strncpy(dst, src.c_str(), n): copy up to n bytes of the string, then zeros up to n. */
  method StrNCpy(dst: array<Byte>, src: Bytes, n: nat)
    requires n <= dst.Length
    modifies dst
    ensures dst[n..] == old(dst[n..])
    ensures var s := Prefix(CString(src), n); dst[..n] == s + seq(n - |s|, _ => 0)
  {
    var s := Prefix(CString(src), n);
    for i := 0 to n
      invariant dst[n..] == old(dst[n..])
      invariant forall j :: 0 <= j < i ==> dst[j] == if j < |s| then s[j] else 0
    {
      dst[i] := if i < |s| then s[i] else 0;
    }
  }

  /** The symbol field of a generated message: zeroed, then strncpy'd with room for a terminator. */
  method SymbolField(name: Bytes) returns (symbol: Symbol)
    ensures symbol == Published(name)
  {
    var field := new Byte[8](_ => 0);
    assert field[7..] == [0];
    StrNCpy(field, name, 7);
    symbol := field[..];
    assert symbol == field[..7] + field[7..];
  }

  function Published(name: Bytes): Symbol { Pad8(Prefix(CString(name), 7)) }

  // ---------- who gets it ----------

  /** Padding a string with zeros does not change where it ends. */
  lemma {:induction false} CStringOfPadded(s: Bytes, zeros: nat)
    requires NulFree(s)
    ensures CString(s + seq(zeros, _ => 0)) == s
  {
    if s != [] {
      CStringOfPadded(s[1..], zeros);
      assert (s + seq(zeros, _ => 0))[1..] == s[1..] + seq(zeros, _ => 0);
    }
  }

  lemma Pad8Injective(a: Bytes, b: Bytes)
    requires NulFree(a) && NulFree(b) && |a| <= 8 && |b| <= 8
    ensures Pad8(a) == Pad8(b) <==> a == b
  {
    CStringOfPadded(a, 8 - |a|);
    CStringOfPadded(b, 8 - |b|);
    assert Pad8(a) == a + seq(8 - |a|, _ => 0) && Pad8(b) == b + seq(8 - |b|, _ => 0);
  }

  /** The filter compares the first seven bytes of the ticker with the first eight of the subscription. */
  lemma FilterExact(s: Bytes, t: Bytes)
    requires NulFree(s) && NulFree(t)
    ensures Pack(Published(s)) == Pack(t) <==> Prefix(s, 7) == Prefix(t, 8)
  {
    CStringOfPadded(s, 0);
    assert s + seq(0, _ => 0) == s;
    PackInjective(Published(s), t);
    assert Pad8(t) == Pad8(Prefix(t, 8));
    Pad8Injective(Prefix(s, 7), Prefix(t, 8));
  }

  /** So a ticker of up to seven bytes reaches exactly the subscriptions to itself, and a ticker of eight bytes,
      which the reader accepts, never reaches its own: it goes to the subscribers of its seven-byte prefix. */
  lemma ReachesOwnSubscriptionIff(s: Bytes, t: Bytes)
    requires NulFree(s) && NulFree(t) && 1 <= |s| <= 8 && |t| <= 8
    ensures |s| <= 7 ==> (Pack(Published(s)) == Pack(t) <==> s == t)
    ensures |s| == 8 ==> (Pack(Published(s)) == Pack(t) <==> t == s[..7])
    ensures Pack(Published(s)) == Pack(s) <==> |s| <= 7
  {
    FilterExact(s, t);
    FilterExact(s, s);
  }
}
