/** A printed operand parses back to itself, and a parsed operand parses the same when
    the tokens behind it are gone. */
module SqlOperandTrip {
  import opened SqlTokens
  import opened SqlOperands

  lemma {:induction false} LowerWords()
    ensures Lower("(") == "(" && Lower(")") == ")" && Lower(".") == "." && Lower(",") == "," && Lower("*") == "*"
    ensures Lower("is") == "is" && Lower("in") == "in" && Lower("not") == "not" && Lower("null") == "null"
    ensures Lower("over") == "over" && Lower("partition") == "partition" && Lower("order") == "order" && Lower("by") == "by"
  {
    assert Lower("(") == "(";
    assert Lower(")") == ")";
    assert Lower(".") == ".";
    assert Lower(",") == ",";
    assert Lower("*") == "*";
    assert Lower("is") == "is";
    assert Lower("in") == "in";
    assert Lower("not") == "not";
    assert Lower("null") == "null";
    assert Lower("over") == "over";
    assert Lower("partition") == "partition";
    assert Lower("order") == "order";
    assert Lower("by") == "by";
  }

  lemma {:induction false} Associate(a: Toks, b: Toks, c: Toks)
    ensures (a + b) + c == a + (b + c)
  {
  }

  /** A word and what is behind it. */
  lemma {:induction false} WordFirst(kind: Kind, value: string, ts: Toks, rest: Toks)
    ensures var s := (Word(kind, value) + ts) + rest;
            s == Word(kind, value) + (ts + rest) && s[0] == Tok(kind, value) && s[1..] == ts + rest
  {
  }

  // ---- Printed operands parse back ----

  /** What may follow any operand without becoming part of it. */
  predicate Ends(rest: Toks) {
    !IsAt(rest, Symbol, "(") && !IsAt(rest, Symbol, ".") && !IsAt(rest, Keyword, "over")
  }

  /** What may follow this one; OVER belongs to a call without a window only. */
  predicate EndsOperand(o: Operand, rest: Toks) {
    && !IsAt(rest, Symbol, "(") && !IsAt(rest, Symbol, ".")
    && (o.Call? && o.window.None? ==> !IsAt(rest, Keyword, "over"))
  }

  lemma {:induction false} OperandStarts(o: Operand, rest: Toks)
    ensures var ts := PrintOperand(o) + rest;
            && ts != [] && !ts[0].kind.Keyword? && !ts[0].kind.Operator?
            && (ts[0].kind.Symbol? ==> o.Star? && ts[0].value == "*")
  {
  }

  lemma {:induction false} ArgTrip(o: Operand, columns: bool, rest: Toks)
    requires IsArg(o) && (columns ==> o.Column?) && !IsAt(rest, Symbol, ".")
    ensures ParseArg(PrintOperand(o) + rest, columns) == Some((o, rest))
  {
    var ts := PrintOperand(o) + rest;
    LowerWords();
    if o.Column? && o.qualifier.Some? {
      assert ts[1..][0] == Tok(Symbol, ".") && ts[2] == Tok(Identifier, o.name) && ts[3..] == rest;
    } else {
      assert ts[1..] == rest;
    }
  }

  lemma {:induction false} ListTrip(os: seq<Operand>, columns: bool, rest: Toks)
    requires os != [] && AllArgs(os) && (columns ==> AllColumns(os)) && !IsAt(rest, Symbol, ",") && !IsAt(rest, Symbol, ".")
    ensures ParseList(PrintList(os) + rest, columns) == Some((os, rest))
  {
    hide ParseArg, ParseList, PrintOperand, PrintList;
    if |os| == 1 {
      ArgTrip(os[0], columns, rest);
      ListOfOne(os, rest);
      ListOnce(PrintList(os) + rest, columns, os[0], rest);
    } else {
      var others := PrintList(os[1..]) + rest;
      ListTrip(os[1..], columns, rest);
      ListOfMore(os, rest);
      CommaFirst(others);
      ArgTrip(os[0], columns, Word(Symbol, ",") + others);
      ListOnce(PrintList(os) + rest, columns, os[0], Word(Symbol, ",") + others);
      assert os == [os[0]] + os[1..];
    }
  }

  lemma {:induction false} ListOnce(ts: Toks, columns: bool, one: Operand, rest: Toks)
    requires ParseArg(ts, columns) == Some((one, rest))
    ensures ParseList(ts, columns) ==
            if IsAt(rest, Symbol, ",") then Prefixed([one], ParseList(rest[1..], columns)) else Some(([one], rest))
  {
  }

  lemma {:induction false} CommaFirst(others: Toks)
    ensures var ts := Word(Symbol, ",") + others; IsAt(ts, Symbol, ",") && !IsAt(ts, Symbol, ".") && ts[1..] == others
  {
    LowerWords();
  }

  lemma {:induction false} ListOfOne(os: seq<Operand>, rest: Toks)
    requires |os| == 1
    ensures PrintList(os) + rest == PrintOperand(os[0]) + rest && os == [os[0]]
  {
  }

  lemma {:induction false} ListOfMore(os: seq<Operand>, rest: Toks)
    requires |os| > 1
    ensures PrintList(os) + rest == PrintOperand(os[0]) + (Word(Symbol, ",") + (PrintList(os[1..]) + rest))
  {
    Associate(PrintOperand(os[0]), Word(Symbol, ",") + PrintList(os[1..]), rest);
    Associate(Word(Symbol, ","), PrintList(os[1..]), rest);
  }

  lemma {:induction false} ArgsTrip(os: seq<Operand>, rest: Toks)
    requires AllArgs(os) && IsAt(rest, Symbol, ")")
    ensures ParseArgs(PrintList(os) + rest) == Some((os, rest))
  {
    LowerWords();
    if os == [] {
      assert PrintList(os) + rest == rest;
    } else {
      ListTrip(os, false, rest);
      var behind := if |os| == 1 then [] else Word(Symbol, ",") + PrintList(os[1..]);
      Associate(PrintOperand(os[0]), behind, rest);
      OperandStarts(os[0], behind + rest);
    }
  }

  lemma {:induction false} CallTrip(o: Operand, rest: Toks)
    requires o.Call? && IsCall(o) && (o.window.None? ==> !IsAt(rest, Keyword, "over"))
    ensures StartsCall(PrintOperand(o) + rest) && ParseCall(PrintOperand(o) + rest) == Some((o, rest))
    decreases o
  {
    var close := Word(Symbol, ")") + PrintOver(o.window);
    var args := PrintList(o.args) + close;
    LowerWords();
    WordFirst(Identifier, o.name, Word(Symbol, "(") + args, rest);
    WordFirst(Symbol, "(", args, rest);
    WordFirst(Symbol, ")", PrintOver(o.window), rest);
    Associate(PrintList(o.args), close, rest);
    ArgsTrip(o.args, close + rest);
    OverTrip(o.name, o.args, o.window, rest);
    CallParts(PrintOperand(o) + rest, o.name, args + rest);
  }

  lemma {:induction false} CallParts(ts: Toks, name: string, args: Toks)
    requires ts == Word(Identifier, name) + (Word(Symbol, "(") + args)
    ensures StartsCall(ts) && ts[0].value == name && ts[2..] == args
  {
    LowerWords();
    assert ts[1..] == Word(Symbol, "(") + args;
  }

  lemma {:induction false} OverTrip(name: string, args: seq<Operand>, window: Option<Window>, rest: Toks)
    requires window.Some? ==> IsWindow(window.value)
    requires window.None? ==> !IsAt(rest, Keyword, "over")
    ensures ParseOver(name, args, Word(Symbol, ")") + (PrintOver(window) + rest)) == Some((Call(name, args, window), rest))
    decreases window
  {
    var behind := PrintOver(window) + rest;
    var ts := Word(Symbol, ")") + behind;
    LowerWords();
    assert ts[1..] == behind;
    if window.None? {
      assert behind == rest;
    } else {
      WordFirst(Keyword, "over", PrintWindow(window.value), rest);
      assert ts[2..] == behind[1..];
      WindowTrip(window.value, rest);
    }
  }

  lemma {:induction false} WindowTrip(w: Window, rest: Toks)
    requires IsWindow(w)
    ensures ParseWindow(PrintWindow(w) + rest) == Some((w, rest))
    decreases w
  {
    hide ParsePartition, ParseOrder, PrintPartition, PrintOrder;
    var close := Word(Symbol, ")");
    var order := PrintOrder(w.order) + close;
    LowerWords();
    WordFirst(Symbol, "(", PrintPartition(w.partition) + order, rest);
    Associate(PrintPartition(w.partition), order, rest);
    Associate(PrintOrder(w.order), close, rest);
    OrderStarts(w.order, close + rest);
    PartitionTrip(w.partition, order + rest);
    OrderTrip(w.order, close + rest);
    assert (close + rest)[1..] == rest;
  }

  lemma {:induction false} OrderStarts(keys: seq<SortKey>, rest: Toks)
    requires IsAt(rest, Symbol, ")")
    ensures var ts := PrintOrder(keys) + rest;
            !IsAt(ts, Symbol, ",") && !IsAt(ts, Symbol, ".") && !IsAt(ts, Keyword, "partition")
  {
    LowerWords();
    if keys == [] {
      assert PrintOrder(keys) + rest == rest;
    } else {
      WordFirst(Keyword, "order", Word(Keyword, "by") + PrintKeys(keys), rest);
    }
  }

  lemma {:induction false} PartitionTrip(columns: seq<Operand>, rest: Toks)
    requires AllColumns(columns) && !IsAt(rest, Symbol, ",") && !IsAt(rest, Symbol, ".") && !IsAt(rest, Keyword, "partition")
    ensures ParsePartition(PrintPartition(columns) + rest) == Some((columns, rest))
  {
    LowerWords();
    if columns == [] {
      assert PrintPartition(columns) + rest == rest;
    } else {
      WordFirst(Keyword, "partition", Word(Keyword, "by") + PrintList(columns), rest);
      WordFirst(Keyword, "by", PrintList(columns), rest);
      assert (PrintPartition(columns) + rest)[2..] == PrintList(columns) + rest;
      ListTrip(columns, true, rest);
    }
  }

  lemma {:induction false} OrderTrip(keys: seq<SortKey>, rest: Toks)
    requires AreKeys(keys) && IsAt(rest, Symbol, ")")
    ensures ParseOrder(PrintOrder(keys) + rest) == Some((keys, rest))
    decreases keys, 1
  {
    LowerWords();
    if keys == [] {
      assert PrintOrder(keys) + rest == rest;
    } else {
      WordFirst(Keyword, "order", Word(Keyword, "by") + PrintKeys(keys), rest);
      WordFirst(Keyword, "by", PrintKeys(keys), rest);
      assert (PrintOrder(keys) + rest)[2..] == PrintKeys(keys) + rest;
      KeysTrip(keys, rest);
    }
  }

  lemma {:induction false} KeysTrip(keys: seq<SortKey>, rest: Toks)
    requires keys != [] && AreKeys(keys) && IsAt(rest, Symbol, ")")
    ensures ParseKeys(PrintKeys(keys) + rest) == Some((keys, rest))
    decreases keys, 0
  {
    hide IsKey, ParseKey, ParseKeys, PrintKey, PrintKeys;
    if |keys| == 1 {
      KeyTrip(keys[0], rest);
      KeysOfOne(keys, rest);
      KeysOnce(PrintKeys(keys) + rest, keys[0], rest);
    } else {
      var others := PrintKeys(keys[1..]) + rest;
      KeysTrip(keys[1..], rest);
      KeysOfMore(keys, rest);
      CommaFirst(others);
      KeyTrip(keys[0], Word(Symbol, ",") + others);
      KeysOnce(PrintKeys(keys) + rest, keys[0], Word(Symbol, ",") + others);
      assert keys == [keys[0]] + keys[1..];
    }
  }

  lemma {:induction false} KeysOnce(ts: Toks, one: SortKey, rest: Toks)
    requires ParseKey(ts) == Some((one, rest))
    ensures ParseKeys(ts) == if IsAt(rest, Symbol, ",") then Prefixed([one], ParseKeys(rest[1..])) else Some(([one], rest))
  {
  }

  lemma {:induction false} KeysOfOne(keys: seq<SortKey>, rest: Toks)
    requires |keys| == 1
    ensures PrintKeys(keys) + rest == PrintKey(keys[0]) + rest && keys == [keys[0]]
  {
  }

  lemma {:induction false} KeysOfMore(keys: seq<SortKey>, rest: Toks)
    requires |keys| > 1
    ensures PrintKeys(keys) + rest == PrintKey(keys[0]) + (Word(Symbol, ",") + (PrintKeys(keys[1..]) + rest))
  {
    Associate(PrintKey(keys[0]), Word(Symbol, ",") + PrintKeys(keys[1..]), rest);
    Associate(Word(Symbol, ","), PrintKeys(keys[1..]), rest);
  }

  lemma {:induction false} KeyTrip(k: SortKey, rest: Toks)
    requires IsKey(k) && (IsAt(rest, Symbol, ")") || IsAt(rest, Symbol, ","))
    ensures ParseKey(PrintKey(k) + rest) == Some((k, rest))
    decreases k
  {
    var behind := PrintDirection(k.direction) + rest;
    Associate(PrintOperand(k.key), PrintDirection(k.direction), rest);
    DirectionTrip(k, rest);
    if k.key.Call? {
      CallTrip(k.key, behind);
    } else {
      ArgTrip(k.key, true, behind);
      ColumnIsNoCall(k.key, behind);
    }
  }

  lemma {:induction false} ColumnIsNoCall(o: Operand, rest: Toks)
    requires o.Column? && !IsAt(rest, Symbol, "(")
    ensures !StartsCall(PrintOperand(o) + rest)
  {
    LowerWords();
    var ts := PrintOperand(o) + rest;
    if o.qualifier.Some? {
      assert ts[1..][0] == Tok(Symbol, ".");
    } else {
      assert ts[1..] == rest;
    }
  }

  lemma {:induction false} DirectionTrip(k: SortKey, rest: Toks)
    requires IsKey(k) && (IsAt(rest, Symbol, ")") || IsAt(rest, Symbol, ","))
    ensures var behind := PrintDirection(k.direction) + rest;
            Ends(behind) && WithDirection(k.key, behind) == (k, rest)
  {
    var behind := PrintDirection(k.direction) + rest;
    if k.direction.Some? {
      assert behind[0] == Tok(Keyword, k.direction.value) && behind[1..] == rest;
    } else {
      assert behind == rest;
    }
  }

  lemma {:induction false} OperandTrip(o: Operand, rest: Toks)
    requires IsOperand(o) && EndsOperand(o, rest)
    ensures ParseOperand(PrintOperand(o) + rest) == Some((o, rest))
  {
    var ts := PrintOperand(o) + rest;
    LowerWords();
    OperandStarts(o, rest);
    if o.Call? {
      CallTrip(o, rest);
    } else {
      ArgTrip(o, false, rest);
      if o.Column? {
        ColumnIsNoCall(o, rest);
      }
    }
  }

  // ---- Nothing behind an operand changes it ----

  /** The tokens cut e tokens from the start, with the rest cut accordingly. */
  function CutRest(ts: Toks, rest: Toks, e: nat): Toks
    requires |rest| <= |ts| && |ts| - |rest| <= e <= |ts|
  {
    rest[..e - (|ts| - |rest|)]
  }

  /** Cut after e tokens, which hold at least what was found, the same is found. */
  predicate SameCut<T(==)>(whole: Parsed<T>, cut: Parsed<T>, ts: Toks, e: nat) {
    whole.Some? && |whole.value.1| <= |ts| && |ts| - |whole.value.1| <= e <= |ts| ==>
      cut == Some((whole.value.0, CutRest(ts, whole.value.1, e)))
  }

  lemma {:induction false} TailOfCut(ts: Toks, e: nat, k: nat)
    requires k <= e <= |ts|
    ensures ts[..e][k..] == ts[k..][..e - k]
  {
  }

  lemma {:induction false} FirstOfCut(ts: Toks, e: nat, kind: Kind, value: string)
    requires e <= |ts|
    ensures IsAt(ts[..e], kind, value) <==> e > 0 && IsAt(ts, kind, value)
  {
  }

  lemma {:induction false} ColumnRefCut(ts: Toks, e: nat)
    requires e <= |ts|
    ensures SameCut(ParseColumnRef(ts), ParseColumnRef(ts[..e]), ts, e)
  {
    if 0 < e {
      TailOfCut(ts, e, 1);
      FirstOfCut(ts[1..], e - 1, Symbol, ".");
      if e >= 3 {
        TailOfCut(ts, e, 3);
      }
    }
  }

  lemma {:induction false} ArgCut(ts: Toks, columns: bool, e: nat)
    requires e <= |ts|
    ensures SameCut(ParseArg(ts, columns), ParseArg(ts[..e], columns), ts, e)
  {
    ColumnRefCut(ts, e);
    if 0 < e {
      TailOfCut(ts, e, 1);
    }
  }

  /** One in front of the others, in the whole and in the cut. */
  lemma {:induction false} PrefixedCut<T>(one: T, others: Parsed<seq<T>>, cut: Parsed<seq<T>>, ts: Toks, rest: Toks, e: nat)
    requires others.Some? && |others.value.1| <= |rest| <= |ts| && |ts| - |others.value.1| <= e <= |ts|
    requires SameCut(others, cut, rest, e - (|ts| - |rest|))
    ensures SameCut(Prefixed([one], others), Prefixed([one], cut), ts, e)
  {
  }

  lemma {:induction false} LastCut<T>(one: T, ts: Toks, rest: Toks, e: nat)
    requires |rest| <= |ts| && |ts| - |rest| <= e <= |ts|
    ensures SameCut(Some(([one], rest)), Some(([one], rest[..e - (|ts| - |rest|)])), ts, e)
  {
  }

  lemma {:induction false} ListCut(ts: Toks, columns: bool, e: nat)
    requires ParseList(ts, columns).Some? && |ts| - |ParseList(ts, columns).value.1| <= e <= |ts|
    ensures SameCut(ParseList(ts, columns), ParseList(ts[..e], columns), ts, e)
    decreases |ts|
  {
    hide ParseArg, ParseList, SameCut;
    var one, rest := ListParts(ts, columns);
    var n := |ts| - |rest|;
    ArgCut(ts, columns, e);
    ListOnceCut(ts, columns, e, one, rest);
    FirstOfCut(rest, e - n, Symbol, ",");
    if IsAt(rest, Symbol, ",") {
      TailOfCut(rest, e - n, 1);
      ListCut(rest[1..], columns, e - n - 1);
      PrefixedCut(one, ParseList(rest[1..], columns), ParseList(rest[1..][..e - n - 1], columns), ts, rest[1..], e);
    } else {
      LastCut(one, ts, rest, e);
    }
  }

  lemma {:induction false} ListOnceCut(ts: Toks, columns: bool, e: nat, one: Operand, rest: Toks)
    requires ParseArg(ts, columns) == Some((one, rest)) && |ts| - |rest| <= e <= |ts|
    requires SameCut(ParseArg(ts, columns), ParseArg(ts[..e], columns), ts, e)
    ensures var cut := rest[..e - (|ts| - |rest|)];
            ParseList(ts[..e], columns) ==
            if IsAt(cut, Symbol, ",") then Prefixed([one], ParseList(cut[1..], columns)) else Some(([one], cut))
  {
    hide ParseArg;
    ListOnce(ts[..e], columns, one, rest[..e - (|ts| - |rest|)]);
  }

  lemma {:induction false} ListParts(ts: Toks, columns: bool) returns (one: Operand, rest: Toks)
    requires ParseList(ts, columns).Some?
    ensures ParseArg(ts, columns) == Some((one, rest)) && |ParseList(ts, columns).value.1| <= |rest| < |ts|
    ensures ParseList(ts, columns) ==
            if IsAt(rest, Symbol, ",") then Prefixed([one], ParseList(rest[1..], columns)) else Some(([one], rest))
  {
    one, rest := ParseArg(ts, columns).value.0, ParseArg(ts, columns).value.1;
  }

  lemma {:induction false} ArgsCut(ts: Toks, e: nat)
    requires ParseArgs(ts).Some? && |ts| - |ParseArgs(ts).value.1| < e <= |ts|
    ensures SameCut(ParseArgs(ts), ParseArgs(ts[..e]), ts, e)
  {
    FirstOfCut(ts, e, Symbol, ")");
    if !IsAt(ts, Symbol, ")") {
      ListCut(ts, false, e);
    }
  }

  lemma {:induction false} CallCut(ts: Toks, e: nat)
    requires StartsCall(ts) && ParseCall(ts).Some? && |ts| - |ParseCall(ts).value.1| <= e <= |ts|
    ensures StartsCall(ts[..e]) && SameCut(ParseCall(ts), ParseCall(ts[..e]), ts, e)
    decreases |ts|, 0
  {
    hide ParseArgs, ParseOver;
    var (args, rest) := ParseArgs(ts[2..]).value;
    var n := |ts| - |rest|;
    TailOfCut(ts, e, 1);
    TailOfCut(ts, e, 2);
    FirstOfCut(ts[1..], e - 1, Symbol, "(");
    ArgsCut(ts[2..], e - 2);
    OverCut(ts[0].value, args, rest, e - n);
  }

  lemma {:induction false} OverCut(name: string, args: seq<Operand>, ts: Toks, e: nat)
    requires ParseOver(name, args, ts).Some? && |ts| - |ParseOver(name, args, ts).value.1| <= e <= |ts|
    ensures SameCut(ParseOver(name, args, ts), ParseOver(name, args, ts[..e]), ts, e)
    decreases |ts|, 0
  {
    FirstOfCut(ts, e, Symbol, ")");
    TailOfCut(ts, e, 1);
    FirstOfCut(ts[1..], e - 1, Keyword, "over");
    if IsAt(ts[1..], Keyword, "over") {
      TailOfCut(ts, e, 2);
      WindowCut(ts[2..], e - 2);
    }
  }

  lemma {:induction false} WindowCut(ts: Toks, e: nat)
    requires ParseWindow(ts).Some? && |ts| - |ParseWindow(ts).value.1| <= e <= |ts|
    ensures SameCut(ParseWindow(ts), ParseWindow(ts[..e]), ts, e)
    decreases |ts|, 0
  {
    hide ParsePartition, ParseWindowEnd;
    var (partition, rest) := ParsePartition(ts[1..]).value;
    FirstOfCut(ts, e, Symbol, "(");
    TailOfCut(ts, e, 1);
    PartitionCut(ts[1..], e - 1);
    WindowEndCut(partition, rest, e - (|ts| - |rest|));
  }

  lemma {:induction false} PartitionCut(ts: Toks, e: nat)
    requires ParsePartition(ts).Some? && |ts| - |ParsePartition(ts).value.1| <= e <= |ts|
    ensures SameCut(ParsePartition(ts), ParsePartition(ts[..e]), ts, e)
  {
    hide ParseList;
    FirstOfCut(ts, e, Keyword, "partition");
    if IsAt(ts, Keyword, "partition") {
      TailOfCut(ts, e, 1);
      TailOfCut(ts, e, 2);
      FirstOfCut(ts[1..], e - 1, Keyword, "by");
      ListCut(ts[2..], true, e - 2);
    }
  }

  lemma {:induction false} WindowEndCut(partition: seq<Operand>, ts: Toks, e: nat)
    requires ParseWindowEnd(partition, ts).Some? && |ts| - |ParseWindowEnd(partition, ts).value.1| <= e <= |ts|
    ensures SameCut(ParseWindowEnd(partition, ts), ParseWindowEnd(partition, ts[..e]), ts, e)
    decreases |ts|, 3
  {
    var (order, rest) := ParseOrder(ts).value;
    var n := |ts| - |rest|;
    OrderCut(ts, e);
    FirstOfCut(rest, e - n, Symbol, ")");
    TailOfCut(rest, e - n, 1);
  }

  lemma {:induction false} OrderCut(ts: Toks, e: nat)
    requires ParseOrder(ts).Some? && |ts| - |ParseOrder(ts).value.1| <= e <= |ts|
    ensures SameCut(ParseOrder(ts), ParseOrder(ts[..e]), ts, e)
    decreases |ts|, 0
  {
    FirstOfCut(ts, e, Keyword, "order");
    if IsAt(ts, Keyword, "order") {
      TailOfCut(ts, e, 1);
      TailOfCut(ts, e, 2);
      FirstOfCut(ts[1..], e - 1, Keyword, "by");
      KeysCut(ts[2..], e - 2);
    }
  }

  lemma {:induction false} KeysCut(ts: Toks, e: nat)
    requires ParseKeys(ts).Some? && |ts| - |ParseKeys(ts).value.1| <= e <= |ts|
    ensures SameCut(ParseKeys(ts), ParseKeys(ts[..e]), ts, e)
    decreases |ts|, 4
  {
    hide ParseKey, ParseKeys, SameCut;
    var one, rest := KeysParts(ts);
    var n := |ts| - |rest|;
    KeyCut(ts, e);
    KeysOnceCut(ts, e, one, rest);
    FirstOfCut(rest, e - n, Symbol, ",");
    if IsAt(rest, Symbol, ",") {
      TailOfCut(rest, e - n, 1);
      KeysCut(rest[1..], e - n - 1);
      PrefixedCut(one, ParseKeys(rest[1..]), ParseKeys(rest[1..][..e - n - 1]), ts, rest[1..], e);
    } else {
      LastCut(one, ts, rest, e);
    }
  }

  lemma {:induction false} KeysOnceCut(ts: Toks, e: nat, one: SortKey, rest: Toks)
    requires ParseKey(ts) == Some((one, rest)) && |ts| - |rest| <= e <= |ts|
    requires SameCut(ParseKey(ts), ParseKey(ts[..e]), ts, e)
    ensures var cut := rest[..e - (|ts| - |rest|)];
            ParseKeys(ts[..e]) == if IsAt(cut, Symbol, ",") then Prefixed([one], ParseKeys(cut[1..])) else Some(([one], cut))
  {
    hide ParseKey;
    KeysOnce(ts[..e], one, rest[..e - (|ts| - |rest|)]);
  }

  lemma {:induction false} KeysParts(ts: Toks) returns (one: SortKey, rest: Toks)
    requires ParseKeys(ts).Some?
    ensures ParseKey(ts) == Some((one, rest)) && |ParseKeys(ts).value.1| <= |rest| < |ts|
    ensures ParseKeys(ts) == if IsAt(rest, Symbol, ",") then Prefixed([one], ParseKeys(rest[1..])) else Some(([one], rest))
  {
    one, rest := ParseKey(ts).value.0, ParseKey(ts).value.1;
  }

  lemma {:induction false} KeyCut(ts: Toks, e: nat)
    requires ParseKey(ts).Some? && |ts| - |ParseKey(ts).value.1| <= e <= |ts|
    ensures SameCut(ParseKey(ts), ParseKey(ts[..e]), ts, e)
    decreases |ts|, 2
  {
    var (key, rest) := ParseColumnOrCall(ts).value;
    ColumnOrCallCut(ts, e);
    DirectionCut(key, rest, e - (|ts| - |rest|));
  }

  lemma {:induction false} ColumnOrCallCut(ts: Toks, e: nat)
    requires ParseColumnOrCall(ts).Some? && |ts| - |ParseColumnOrCall(ts).value.1| <= e <= |ts|
    ensures SameCut(ParseColumnOrCall(ts), ParseColumnOrCall(ts[..e]), ts, e)
    decreases |ts|, 1
  {
    StartsCallCut(ts, e);
    if StartsCall(ts) {
      CallCut(ts, e);
    } else {
      ColumnRefCut(ts, e);
    }
  }

  lemma {:induction false} StartsCallCut(ts: Toks, e: nat)
    requires 0 < e <= |ts|
    ensures StartsCall(ts[..e]) ==> StartsCall(ts)
  {
    TailOfCut(ts, e, 1);
    FirstOfCut(ts[1..], e - 1, Symbol, "(");
  }

  lemma {:induction false} DirectionCut(key: Operand, ts: Toks, e: nat)
    requires |ts| - |WithDirection(key, ts).1| <= e <= |ts|
    ensures SameCut(Some(WithDirection(key, ts)), Some(WithDirection(key, ts[..e])), ts, e)
  {
    FirstOfCut(ts, e, Keyword, "asc");
    FirstOfCut(ts, e, Keyword, "desc");
    if StartsDirection(ts) {
      TailOfCut(ts, e, 1);
    }
  }

  lemma {:induction false} OperandCut(ts: Toks, e: nat)
    requires ParseOperand(ts).Some? && |ts| - |ParseOperand(ts).value.1| <= e <= |ts|
    ensures SameCut(ParseOperand(ts), ParseOperand(ts[..e]), ts, e)
  {
    if ts[0].kind.Identifier? {
      ColumnOrCallCut(ts, e);
    } else {
      TailOfCut(ts, e, 1);
    }
  }
}
