/** Decoding stack traces (src/BacktraceDemangler.cpp, src/AllocationRecord.cpp). */
module Backtrace {
  import opened Requests

  const NPOS: nat := UINT64_RANGE - 1

  datatype Option<T> = None | Some(value: T)

  /** `std::out_of_range` is the one exception the decoder can raise. */
  datatype Result<T> = Ok(value: T) | OutOfRange {
    predicate IsFailure() {
      OutOfRange?
    }

    function PropagateFailure<U>(): Result<U>
      requires OutOfRange?
    {
      OutOfRange
    }

    function Extract(): T
      requires Ok?
    {
      value
    }
  }

  datatype ModuleFunctionOffset =
    ModuleFunctionOffset(address: string, moduleName: string, functionName: string, offset: string)

  // ----- std::string and size_t -----

  /** `s.find(c, from)`. */
  function Find(s: string, c: char, from: nat): nat
    decreases |s| - from
  {
    if from >= |s| then NPOS
    else if s[from] == c then from
    else Find(s, c, from + 1)
  }

  /** `s.substr(pos, len)`. */
  function Substr(s: string, pos: nat, len: nat): Result<string> {
    if pos > |s| then OutOfRange
    else if len <= |s| - pos then Ok(s[pos..pos + len])
    else Ok(s[pos..])
  }

  /** `a + 1` and `a - b` on `size_t`. */
  function Next(a: nat): nat {
    if a == NPOS then 0 else a + 1
  }

  function Minus(a: nat, b: nat): nat
    requires b <= a + UINT64_RANGE
  {
    if b <= a then a - b else a + UINT64_RANGE - b
  }

  lemma {:induction false} FindIsFirst(s: string, c: char, from: nat, k: nat)
    requires from <= k < |s| && s[k] == c
    requires forall i :: from <= i < k ==> s[i] != c
    ensures Find(s, c, from) == k
    decreases k - from
  {
    if from < k {
      FindIsFirst(s, c, from + 1, k);
    }
  }

  lemma {:induction false} FindFindsOrNot(s: string, c: char, from: nat)
    requires |s| < NPOS
    ensures Find(s, c, from) == NPOS <==> forall i :: from <= i < |s| ==> s[i] != c
    ensures Find(s, c, from) != NPOS ==> from <= Find(s, c, from) < |s| && s[Find(s, c, from)] == c
    ensures forall i :: from <= i < |s| && s[i] == c ==> Find(s, c, from) <= i
    decreases |s| - from
  {
    if from < |s| && s[from] != c {
      FindFindsOrNot(s, c, from + 1);
    }
  }

  // ----- decode_mangled_line -----

  /** `demangle` is the ABI's demangler; None is a failure status. */
  function Decode(line: string, demangle: string -> Option<string>): Result<ModuleFunctionOffset>
    requires |line| < NPOS
  {
    FindFindsOrNot(line, '(', 0);
    var openParen := Find(line, '(', 0);
    FindFindsOrNot(line, '+', openParen);
    FindFindsOrNot(line, ')', openParen);
    FindFindsOrNot(line, '[', 0);
    FindFindsOrNot(line, ']', 0);
    var plus := Find(line, '+', openParen);
    var closeParen := Find(line, ')', openParen);
    var mangled :- Substr(line, Next(openParen), Minus(Minus(plus, openParen), 1));
    var unmangled :=
      if mangled == "" then ""
      else match demangle(mangled) case Some(name) => name case None => mangled;
    var openBracket, closeBracket := Find(line, '[', 0), Find(line, ']', 0);
    var address :- Substr(line, Next(openBracket), Minus(Minus(closeBracket, openBracket), 1));
    var moduleName :- Substr(line, 0, openParen);
    var offset :- Substr(line, plus, Minus(closeParen, plus));
    Ok(ModuleFunctionOffset(address, moduleName, unmangled, offset))
  }

  /** The decoder raises an exception exactly on the lines without a '+' somewhere after a '('. */
  lemma DecodeFailsIff(line: string, demangle: string -> Option<string>)
    requires |line| < NPOS
    ensures Decode(line, demangle).OutOfRange? <==>
              forall i, j :: 0 <= i < j < |line| ==> !(line[i] == '(' && line[j] == '+')
  {
    var openParen := Find(line, '(', 0);
    var plus := Find(line, '+', openParen);
    FindFindsOrNot(line, '(', 0);
    FindFindsOrNot(line, '+', openParen);
    FindFindsOrNot(line, ')', openParen);
    FindFindsOrNot(line, '[', 0);
    FindFindsOrNot(line, ']', 0);
    if plus != NPOS {
      assert line[openParen] == '(' && line[plus] == '+';
    }
  }

  /** `k` is where the first `c` from `start` on stands, or the length when there is none. */
  ghost predicate FirstAt(s: string, c: char, start: nat, k: nat) {
    && start <= k <= |s| && (k < |s| ==> s[k] == c)
    && forall i :: start <= i < k ==> s[i] != c
  }

  lemma FindIs(s: string, c: char, start: nat, k: nat)
    requires |s| < NPOS && FirstAt(s, c, start, k)
    ensures Find(s, c, start) == if k < |s| then k else NPOS
  {
    FindFindsOrNot(s, c, start);
    if k < |s| {
      FindIsFirst(s, c, start, k);
    }
  }

  /** Where `find` ends up for a first occurrence at `k`. */
  function Found(s: string, k: nat): nat {
    if k < |s| then k else NPOS
  }

  lemma OffsetIs(line: string, q: nat, c: nat)
    requires |line| < NPOS && q < |line| && c <= |line| && q != c
    ensures Substr(line, q, Minus(Found(line, c), q)) == Ok(if q < c then line[q..c] else line[q..])
  {
    assert line[q..|line|] == line[q..];
  }

  lemma AddressIs(line: string, b: nat, e: nat)
    requires |line| < NPOS && b <= |line| && e <= |line| && (b < |line| ==> b != e)
    ensures var start := if b < |line| then b + 1 else 0;
            Substr(line, Next(Found(line, b)), Minus(Minus(Found(line, e), Found(line, b)), 1))
            == Ok(if start <= e then line[start..e] else line[start..])
  {
    var start := if b < |line| then b + 1 else 0;
    assert line[start..|line|] == line[start..];
    assert Next(Found(line, b)) == start;
    if e < |line| && start <= e {
      assert Minus(Minus(e, Found(line, b)), 1) == e - start;
    }
  }

  lemma NameIs(line: string, p: nat, q: nat)
    requires |line| < NPOS && p < q < |line|
    ensures Substr(line, Next(p), Minus(Minus(q, p), 1)) == Ok(line[p + 1..q])
    ensures Substr(line, 0, p) == Ok(line[..p])
  {
  }

  /** What the decoder cuts out of any line it accepts, plain or not: the module is what comes before the first
      '('; the function is what is between that and the next '+'; the offset goes from that '+' to the ')'
      that first follows the '(', or to the end of the line when it does not come after the '+'; the address
      goes from past the first '[', or from the start, to the first ']', or to the end when it does not come
      after the '['. */
  lemma DecodedTextsAre(line: string, demangle: string -> Option<string>,
                        p: nat, q: nat, c: nat, b: nat, e: nat)
    requires |line| < NPOS && p < |line| && q < |line|
    requires FirstAt(line, '(', 0, p) && FirstAt(line, '+', p, q) && FirstAt(line, ')', p, c)
    requires FirstAt(line, '[', 0, b) && FirstAt(line, ']', 0, e)
    ensures p < q && Decode(line, demangle).Ok?
    ensures var d, name, start := Decode(line, demangle).value, line[p + 1..q], if b < |line| then b + 1 else 0;
            && d.moduleName == line[..p]
            && d.functionName == (if name == "" then "" else match demangle(name) case Some(n) => n case None => name)
            && d.offset == (if q < c then line[q..c] else line[q..])
            && d.address == (if start <= e then line[start..e] else line[start..])
  {
    FindIs(line, '(', 0, p);
    FindIs(line, '+', p, q);
    FindIs(line, ')', p, c);
    FindIs(line, '[', 0, b);
    FindIs(line, ']', 0, e);
    assert line[q] != line[p] && line[q] != ')';
    assert b < |line| && e < |line| ==> line[b] != line[e];
    NameIs(line, p, q);
    OffsetIs(line, q, c);
    AddressIs(line, b, e);
    hide Find, Substr, Minus, Next;
  }

  function Render(moduleName: string, functionName: string, offset: string, address: string): string {
    moduleName + "(" + functionName + "+" + offset + ") [" + address + "]"
  }

  /** The texts hold none of the separators that the decoder looks for in or before them. */
  predicate Plain(m: string, f: string, o: string, a: string) {
    && '(' !in m && '[' !in m && ']' !in m
    && '+' !in f && ')' !in f && '[' !in f && ']' !in f
    && ')' !in o && '[' !in o && ']' !in o
    && ']' !in a
  }

  lemma FindPast(skip: string, text: string, c: char, rest: string)
    requires c !in text
    ensures Find(skip + text + [c] + rest, c, |skip|) == |skip| + |text|
  {
    var line := skip + text + [c] + rest;
    forall i | |skip| <= i < |skip| + |text|
      ensures line[i] != c
    {
      assert line[i] == text[i - |skip|];
    }
    FindIsFirst(line, c, |skip|, |skip| + |text|);
  }

  lemma OpenParenFound(m: string, f: string, o: string, a: string)
    requires Plain(m, f, o, a)
    ensures Find(Render(m, f, o, a), '(', 0) == |m|
  {
    hide Find;
    var rest := f + "+" + o + ") [" + a + "]";
    FindPast("", m, '(', rest);
    assert Render(m, f, o, a) == "" + m + ['('] + rest;
  }

  lemma PlusFound(m: string, f: string, o: string, a: string)
    requires Plain(m, f, o, a)
    ensures Find(Render(m, f, o, a), '+', |m|) == |m| + 1 + |f|
  {
    hide Find;
    var rest := o + ") [" + a + "]";
    FindPast(m, "(" + f, '+', rest);
    assert Render(m, f, o, a) == m + ("(" + f) + ['+'] + rest;
  }

  lemma CloseParenFound(m: string, f: string, o: string, a: string)
    requires Plain(m, f, o, a)
    ensures Find(Render(m, f, o, a), ')', |m|) == |m| + 2 + |f| + |o|
  {
    hide Find;
    var text, rest := "(" + f + "+" + o, " [" + a + "]";
    FindPast(m, text, ')', rest);
    assert Render(m, f, o, a) == m + text + [')'] + rest;
  }

  lemma BracketsFound(m: string, f: string, o: string, a: string)
    requires Plain(m, f, o, a)
    ensures Find(Render(m, f, o, a), '[', 0) == |m| + 4 + |f| + |o|
    ensures Find(Render(m, f, o, a), ']', 0) == |m| + 5 + |f| + |o| + |a|
  {
    hide Find;
    var line := Render(m, f, o, a);
    var front := m + "(" + f + "+" + o + ") ";
    FindPast("", front, '[', a + "]");
    assert line == "" + front + ['['] + (a + "]");
    FindPast("", front + "[" + a, ']', "");
    assert line == "" + (front + "[" + a) + [']'] + "";
  }

  lemma SubstrMiddle(x: string, y: string, z: string)
    ensures Substr(x + y + z, |x|, |y|) == Ok(y)
  {
    assert (x + y + z)[|x|..|x| + |y|] == y;
  }

  /** The four texts where the decoder cuts them out. */
  lemma PiecesFound(m: string, f: string, o: string, a: string)
    ensures Substr(Render(m, f, o, a), 0, |m|) == Ok(m)
    ensures Substr(Render(m, f, o, a), |m| + 1, |f|) == Ok(f)
    ensures Substr(Render(m, f, o, a), |m| + 1 + |f|, 1 + |o|) == Ok("+" + o)
    ensures Substr(Render(m, f, o, a), |m| + 5 + |f| + |o|, |a|) == Ok(a)
  {
    hide Substr;
    var line := Render(m, f, o, a);
    var front := m + "(" + f + "+" + o + ") [";
    SubstrMiddle("", m, "(" + f + "+" + o + ") [" + a + "]");
    assert line == "" + m + ("(" + f + "+" + o + ") [" + a + "]");
    SubstrMiddle(m + "(", f, "+" + o + ") [" + a + "]");
    assert line == (m + "(") + f + ("+" + o + ") [" + a + "]");
    SubstrMiddle(m + "(" + f, "+" + o, ") [" + a + "]");
    assert line == (m + "(" + f) + ("+" + o) + (") [" + a + "]");
    SubstrMiddle(front, a, "]");
    assert line == front + a + "]";
  }

  /** A line in glibc's format is taken apart into its four texts, the function demangled when it can be. */
  lemma DecodeRoundTrip(m: string, f: string, o: string, a: string, demangle: string -> Option<string>)
    requires Plain(m, f, o, a)
    requires |Render(m, f, o, a)| < NPOS
    ensures Decode(Render(m, f, o, a), demangle) ==
            Ok(ModuleFunctionOffset(a, m,
                 if f == "" then "" else match demangle(f) case Some(name) => name case None => f, "+" + o))
  {
    hide Find, Substr, Render;
    RenderLength(m, f, o, a);
    OpenParenFound(m, f, o, a);
    PlusFound(m, f, o, a);
    CloseParenFound(m, f, o, a);
    BracketsFound(m, f, o, a);
    PiecesFound(m, f, o, a);
  }

  lemma RenderLength(m: string, f: string, o: string, a: string)
    ensures |Render(m, f, o, a)| == |m| + |f| + |o| + |a| + 6
  {
  }

  // ----- symbols_for_addresses and stack_trace -----

  function DecodeAll(lines: seq<string>, demangle: string -> Option<string>): Result<seq<ModuleFunctionOffset>>
    requires forall l :: l in lines ==> |l| < NPOS
  {
    if lines == [] then Ok([])
    else
      var first :- Decode(lines[0], demangle);
      var rest :- DecodeAll(lines[1..], demangle);
      Ok([first] + rest)
  }

  lemma {:induction false} DecodeAllOneMore(lines: seq<string>, line: string, demangle: string -> Option<string>)
    requires forall l :: l in lines + [line] ==> |l| < NPOS
    requires forall l :: l in lines ==> |l| < NPOS
    ensures |line| < NPOS
    ensures DecodeAll(lines + [line], demangle)
         == if DecodeAll(lines, demangle).OutOfRange? || Decode(line, demangle).OutOfRange? then OutOfRange
            else Ok(DecodeAll(lines, demangle).value + [Decode(line, demangle).value])
  {
    hide Decode;
    assert line in lines + [line];
    if lines != [] {
      assert (lines + [line])[1..] == lines[1..] + [line];
      DecodeAllOneMore(lines[1..], line, demangle);
      if DecodeAll(lines, demangle).Ok? && Decode(line, demangle).Ok? {
        var first, rest := Decode(lines[0], demangle).value, DecodeAll(lines[1..], demangle).value;
        var last := [Decode(line, demangle).value];
        assert [first] + (rest + last) == [first] + rest + last;
      }
    } else {
      assert lines + [line] == [line] && [line][1..] == [];
      if Decode(line, demangle).Ok? {
        var last := [Decode(line, demangle).value];
        assert last + [] == [] + last;
      }
    }
  }

  /** glibc's backtrace_symbols: one line per address, or nothing when it runs out of memory. */
  ghost predicate IsSymboliser(symbolise: seq<Address> -> Option<seq<string>>) {
    forall xs :: symbolise(xs).Some? ==>
      |symbolise(xs).value| == |xs| && forall l :: l in symbolise(xs).value ==> |l| < NPOS
  }

  /** The frames before the first null. */
  function Frames(addresses: seq<Address>): seq<Address> {
    if addresses == [] || addresses[0] == NULLPTR then [] else [addresses[0]] + Frames(addresses[1..])
  }

  lemma {:induction false} FramesUpTo(addresses: seq<Address>, n: nat)
    requires n <= |addresses| && forall i :: 0 <= i < n ==> addresses[i] != NULLPTR
    requires n == |addresses| || addresses[n] == NULLPTR
    ensures Frames(addresses) == addresses[..n]
  {
    if n > 0 {
      FramesUpTo(addresses[1..], n - 1);
    }
  }

  /** What a trace decodes to: nothing when there are no symbols, otherwise its frames in order. */
  ghost function Symbols(addresses: seq<Address>, symbolise: seq<Address> -> Option<seq<string>>,
                         demangle: string -> Option<string>): Result<seq<ModuleFunctionOffset>>
    requires IsSymboliser(symbolise)
  {
    match symbolise(Frames(addresses))
    case None => Ok([])
    case Some(lines) => DecodeAll(lines, demangle)
  }

  method SymbolsForAddresses(addresses: seq<Address>, symbolise: seq<Address> -> Option<seq<string>>,
                             demangle: string -> Option<string>) returns (r: Result<seq<ModuleFunctionOffset>>)
    requires IsSymboliser(symbolise)
    ensures r == Symbols(addresses, symbolise, demangle)
  {
    var numAddresses := 0;
    while numAddresses < |addresses| && addresses[numAddresses] != NULLPTR
      invariant 0 <= numAddresses <= |addresses|
      invariant forall i :: 0 <= i < numAddresses ==> addresses[i] != NULLPTR
    {
      numAddresses := numAddresses + 1;
    }
    FramesUpTo(addresses, numAddresses);
    var backtraceLines := symbolise(addresses[..numAddresses]);
    if backtraceLines.None? {
      return Ok([]);
    }
    var lines := backtraceLines.value;
    assert |lines| == numAddresses;
    assert Symbols(addresses, symbolise, demangle) == DecodeAll(lines, demangle);
    assert lines[..0] == [] && DecodeAll(lines[..0], demangle) == Ok([]);
    hide Decode, DecodeAll, Symbols, Frames;
    var tailRecords: seq<ModuleFunctionOffset> := [];
    var i := 0;
    while i < numAddresses
      invariant 0 <= i <= numAddresses
      invariant DecodeAll(lines[..i], demangle) == Ok(tailRecords)
    {
      DecodeOneMore(lines, i, demangle);
      var decoded := Decode(lines[i], demangle);
      if decoded.OutOfRange? {
        FailurePersists(lines, i + 1, demangle);
        return OutOfRange;
      }
      tailRecords := tailRecords + [decoded.value];
      i := i + 1;
    }
    assert lines[..i] == lines;
    r := Ok(tailRecords);
  }

  lemma DecodeOneMore(lines: seq<string>, i: nat, demangle: string -> Option<string>)
    requires i < |lines| && forall l :: l in lines ==> |l| < NPOS
    ensures |lines[i]| < NPOS
    ensures DecodeAll(lines[..i + 1], demangle)
         == if DecodeAll(lines[..i], demangle).OutOfRange? || Decode(lines[i], demangle).OutOfRange? then OutOfRange
            else Ok(DecodeAll(lines[..i], demangle).value + [Decode(lines[i], demangle).value])
  {
    hide Decode, DecodeAll;
    assert lines[..i + 1] == lines[..i] + [lines[i]];
    DecodeAllOneMore(lines[..i], lines[i], demangle);
  }

  lemma {:induction false} FailurePersists(lines: seq<string>, n: nat, demangle: string -> Option<string>)
    requires n <= |lines| && forall l :: l in lines ==> |l| < NPOS
    requires DecodeAll(lines[..n], demangle).OutOfRange?
    ensures DecodeAll(lines, demangle).OutOfRange?
    decreases |lines| - n
  {
    if n == |lines| {
      assert lines[..n] == lines;
    } else {
      DecodeOneMore(lines, n, demangle);
      FailurePersists(lines, n + 1, demangle);
    }
  }

  /** `AllocationRecord::stack_trace`. The loop looks at a slot before it tests the bound, so with four
      non-null frames it also reads the slot past the array; whatever is there, the four frames are decoded. */
  method StackTrace(record: AllocationRecord, beyond: Address, symbolise: seq<Address> -> Option<seq<string>>,
                    demangle: string -> Option<string>)
    returns (r: Result<seq<ModuleFunctionOffset>>, readsBeyond: bool)
    requires |record.stackTail| == MAX_CALLSTACK_RETAINED && IsSymboliser(symbolise)
    ensures r == Symbols(record.stackTail, symbolise, demangle)
    ensures readsBeyond <==> NULLPTR !in record.stackTail
  {
    var addresses: seq<Address> := [];
    var n := 0;
    while Slot(record.stackTail, n, beyond) != NULLPTR && n < MAX_CALLSTACK_RETAINED
      invariant 0 <= n <= MAX_CALLSTACK_RETAINED
      invariant addresses == record.stackTail[..n]
      invariant forall i :: 0 <= i < n ==> record.stackTail[i] != NULLPTR
      decreases MAX_CALLSTACK_RETAINED - n
    {
      addresses := addresses + [record.stackTail[n]];
      n := n + 1;
    }
    readsBeyond := n == MAX_CALLSTACK_RETAINED;
    FramesUpTo(record.stackTail, n);
    FramesUpTo(addresses, n);
    assert addresses[..n] == addresses;
    r := SymbolsForAddresses(addresses, symbolise, demangle);
  }

  function Slot(tail: seq<Address>, n: nat, beyond: Address): Address {
    if n < |tail| then tail[n] else beyond
  }

  // ----- what is decoded -----

  /** Decoding all lines fails exactly when some line fails. */
  lemma {:induction false} DecodeAllFailsIff(lines: seq<string>, demangle: string -> Option<string>)
    requires forall l :: l in lines ==> |l| < NPOS
    ensures DecodeAll(lines, demangle).OutOfRange? <==> exists l :: l in lines && Decode(l, demangle).OutOfRange?
  {
    hide Decode;
    if lines != [] {
      DecodeAllFailsIff(lines[1..], demangle);
      assert forall l :: l in lines <==> l == lines[0] || l in lines[1..];
    }
  }

  /** Otherwise entry i is the decoding of line i. */
  lemma {:induction false} DecodeAllIsEachLine(lines: seq<string>, demangle: string -> Option<string>)
    requires forall l :: l in lines ==> |l| < NPOS
    requires DecodeAll(lines, demangle).Ok?
    ensures |DecodeAll(lines, demangle).value| == |lines|
    ensures forall i :: 0 <= i < |lines| ==>
              lines[i] in lines && Decode(lines[i], demangle) == Ok(DecodeAll(lines, demangle).value[i])
  {
    hide Decode;
    if lines != [] {
      DecodeAllIsEachLine(lines[1..], demangle);
      var first, rest := Decode(lines[0], demangle).value, DecodeAll(lines[1..], demangle).value;
      assert DecodeAll(lines, demangle).value == [first] + rest;
      assert forall i :: 1 <= i < |lines| ==> lines[i] == lines[1..][i - 1];
    }
  }

  /** The texts of one line of a trace. */
  datatype Frame = Frame(moduleName: string, functionName: string, offset: string, address: string) {
    predicate IsPlain() {
      Plain(moduleName, functionName, offset, address)
    }

    function Line(): string {
      Render(moduleName, functionName, offset, address)
    }

    function Decoded(demangle: string -> Option<string>): ModuleFunctionOffset {
      var name := if functionName == "" then ""
                  else match demangle(functionName) case Some(name) => name case None => functionName;
      ModuleFunctionOffset(address, moduleName, name, "+" + offset)
    }
  }

  lemma FrameRoundTrip(f: Frame, demangle: string -> Option<string>)
    requires f.IsPlain() && |f.Line()| < NPOS
    ensures Decode(f.Line(), demangle) == Ok(f.Decoded(demangle))
  {
    DecodeRoundTrip(f.moduleName, f.functionName, f.offset, f.address, demangle);
  }

  /** What `Symbols` is: with `n` frames before the first null, one entry per frame in order, entry i the
      decoding of the i-th line; it fails exactly when a line has no '+' after a '('; and it is empty when
      there are no lines. */
  lemma SymbolsAreTheFrames(addresses: seq<Address>, n: nat, symbolise: seq<Address> -> Option<seq<string>>,
                            demangle: string -> Option<string>)
    requires IsSymboliser(symbolise) && n <= |addresses|
    requires forall i :: 0 <= i < n ==> addresses[i] != NULLPTR
    requires n == |addresses| || addresses[n] == NULLPTR
    ensures symbolise(addresses[..n]).None? ==> Symbols(addresses, symbolise, demangle) == Ok([])
    ensures symbolise(addresses[..n]).Some? ==>
              var lines, r := symbolise(addresses[..n]).value, Symbols(addresses, symbolise, demangle);
              && |lines| == n && (forall l :: l in lines ==> |l| < NPOS)
              && (r.OutOfRange? <==> exists l :: l in lines && NoPlusAfterParen(l))
              && (r.Ok? ==> |r.value| == n && forall i :: 0 <= i < n ==>
                    lines[i] in lines && Decode(lines[i], demangle) == Ok(r.value[i]))
  {
    FramesUpTo(addresses, n);
    if symbolise(addresses[..n]).Some? {
      var lines := symbolise(addresses[..n]).value;
      assert |addresses[..n]| == n;
      DecodeAllFailsIff(lines, demangle);
      if DecodeAll(lines, demangle).Ok? {
        DecodeAllIsEachLine(lines, demangle);
      }
      hide Decode, DecodeAll;
      forall l | l in lines {
        DecodeFailsIff(l, demangle);
      }
    }
  }

  ghost predicate NoPlusAfterParen(line: string) {
    forall i, j :: 0 <= i < j < |line| ==> !(line[i] == '(' && line[j] == '+')
  }

  /** A trace whose lines have glibc's format decodes to the texts of its frames before the first null. */
  lemma TraceRoundTrip(addresses: seq<Address>, frames: seq<Frame>, lines: seq<string>,
                       symbolise: seq<Address> -> Option<seq<string>>, demangle: string -> Option<string>)
    requires IsSymboliser(symbolise) && |frames| <= |addresses|
    requires forall i :: 0 <= i < |frames| ==> addresses[i] != NULLPTR
    requires |frames| == |addresses| || addresses[|frames|] == NULLPTR
    requires symbolise(addresses[..|frames|]) == Some(lines) && |lines| == |frames|
    requires forall i :: 0 <= i < |frames| ==> frames[i].IsPlain() && lines[i] == frames[i].Line()
    ensures var r := Symbols(addresses, symbolise, demangle);
            r.Ok? && |r.value| == |frames| && forall i :: 0 <= i < |frames| ==> r.value[i] == frames[i].Decoded(demangle)
  {
    FramesUpTo(addresses, |frames|);
    hide Decode, DecodeAll, Render, Plain;
    forall i | 0 <= i < |frames|
      ensures |lines[i]| < NPOS && Decode(lines[i], demangle) == Ok(frames[i].Decoded(demangle))
    {
      assert lines[i] in lines;
      FrameRoundTrip(frames[i], demangle);
    }
    DecodeAllFailsIff(lines, demangle);
    DecodeAllIsEachLine(lines, demangle);
  }
}
