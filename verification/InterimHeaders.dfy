/** 1xx headers in front of a response, and what they leave behind. */
module InterimHeaders {
  import opened Options
  import opened Receive
  import opened Headers
  import opened Response
  import opened Wire

  /** Apart from pipelining itself, a header means the same in pipelined mode. */
  lemma {:induction false} FoldAgrees(h: Head, g: Head, lines: seq<string>)
    requires g == h.(pipelined := g.pipelined)
    ensures Fold(h, lines).Some? <==> Fold(g, lines).Some?
    ensures Fold(h, lines).Some? ==> Fold(g, lines).value == Fold(h, lines).value.(pipelined := Fold(g, lines).value.pipelined)
    decreases |lines|
  {
    hide Decimals, IsField, Mentions, LengthField, AfterSpace, ValueOf;
    if lines != [] {
      var h' := if h.status == 0 then StatusLine(h, lines[0]) else HeaderField(h, lines[0]);
      var g' := if g.status == 0 then StatusLine(g, lines[0]) else HeaderField(g, lines[0]);
      if h'.Some? {
        FoldAgrees(h'.value, g'.value, lines[1..]);
      }
    }
  }

  /** Headers one behind the other. */
  function Blocks(blocks: seq<seq<string>>): seq<char> {
    if blocks == [] then [] else Lines(blocks[0]) + "\r\n" + Blocks(blocks[1..])
  }

  /** A 1xx header that sets nothing that lasts, except perhaps pipelining. */
  ghost predicate InterimOk(block: seq<string>) {
    HeaderOk(block) && Fold(Start(false), block).Some? &&
    var h := Fold(Start(false), block).value;
    Interim(h.status) && h.(status := 0) == Start(h.pipelined)
  }

  /** Whether pipelining is allowed behind these headers. */
  function PipelinedBehind(pipelined: bool, blocks: seq<seq<string>>): bool
    decreases |blocks|
  {
    if blocks == [] then pipelined
    else
      var h := Fold(Start(pipelined), blocks[0]);
      PipelinedBehind(if h.None? then pipelined else h.value.pipelined, blocks[1..])
  }

  lemma InterimFolds(pipelined: bool, block: seq<string>)
    requires InterimOk(block)
    ensures Fold(Start(pipelined), block).Some?
    ensures var h := Fold(Start(pipelined), block).value; Interim(h.status) && h.(status := 0) == Start(h.pipelined)
  {
    FoldAgrees(Start(false), Start(pipelined), block);
  }

  /** Such headers leave nothing behind but whether pipelining is on. */
  lemma {:induction false} InterimSkips(pipelined: bool, blocks: seq<seq<string>>, rest: Stream)
    requires forall k :: 0 <= k < |blocks| ==> InterimOk(blocks[k])
    ensures ReadHead(Start(pipelined), Blocks(blocks) + rest) == ReadHead(Start(PipelinedBehind(pipelined, blocks)), rest)
    decreases |blocks|
  {
    hide ReadHead, Fold;
    if blocks == [] {
      assert Blocks(blocks) + rest == rest;
    } else {
      assert InterimOk(blocks[0]);
      InterimFolds(pipelined, blocks[0]);
      var more := Blocks(blocks[1..]) + rest;
      assert Blocks(blocks) + rest == Lines(blocks[0]) + "\r\n" + more;
      HeadParses(Start(pipelined), blocks[0], more);
      InterimSkips(Fold(Start(pipelined), blocks[0]).value.pipelined, blocks[1..], rest);
    }
  }

  /** Interim headers and the final one, cut anywhere, are no header. */
  lemma {:induction false} BlocksCut(pipelined: bool, blocks: seq<seq<string>>, lines: seq<string>, n: nat)
    requires (forall k :: 0 <= k < |blocks| ==> InterimOk(blocks[k])) && HeaderOk(lines)
    requires n < |Blocks(blocks) + (Lines(lines) + "\r\n")|
    ensures ReadHead(Start(pipelined), (Blocks(blocks) + (Lines(lines) + "\r\n"))[..n]).None?
    decreases |blocks|
  {
    hide ReadHead, Fold, Lines;
    var last := Lines(lines) + "\r\n";
    if blocks == [] {
      assert Blocks(blocks) + last == last;
      HeadCut(Start(pipelined), lines, n);
    } else {
      assert InterimOk(blocks[0]);
      InterimFolds(pipelined, blocks[0]);
      var block, more := Lines(blocks[0]) + "\r\n", Blocks(blocks[1..]) + last;
      assert Blocks(blocks) + last == block + more;
      if n < |block| {
        assert (block + more)[..n] == block[..n];
        HeadCut(Start(pipelined), blocks[0], n);
      } else {
        assert (block + more)[..n] == block + more[..n - |block|];
        HeadParses(Start(pipelined), blocks[0], more[..n - |block|]);
        BlocksCut(Fold(Start(pipelined), blocks[0]).value.pipelined, blocks[1..], lines, n - |block|);
      }
    }
  }

  /** A header with what an earlier one has set mixed in. */
  function Mixed(h: Head, g: Head): Head {
    h.(length := if h.length == -1 then g.length else h.length,
       chunked := h.chunked || g.chunked, keepalive := h.keepalive || g.keepalive)
  }

  lemma FieldMixes(h: Head, g: Head, line: string)
    requires h.length >= -1
    ensures HeaderField(h, line).Some? <==> HeaderField(Mixed(h, g), line).Some?
    ensures HeaderField(h, line).Some? ==>
      HeaderField(h, line).value.length >= -1 && HeaderField(Mixed(h, g), line).value == Mixed(HeaderField(h, line).value, g)
  {
    hide Mentions, LengthField, Lower;
    if |line| >= 15 {
      NumbersInRange(line[15..]);
    }
  }

  lemma {:induction false} FoldMixes(h: Head, g: Head, lines: seq<string>)
    requires h.length >= -1
    ensures Fold(h, lines).Some? <==> Fold(Mixed(h, g), lines).Some?
    ensures Fold(h, lines).Some? ==> Fold(Mixed(h, g), lines).value == Mixed(Fold(h, lines).value, g)
    decreases |lines|
  {
    hide Decimals, AfterSpace, ValueOf, HeaderField;
    if lines != [] {
      FieldMixes(h, g, lines[0]);
      var next := if h.status == 0 then StatusLine(h, lines[0]) else HeaderField(h, lines[0]);
      if next.Some? {
        FoldMixes(next.value, g, lines[1..]);
      }
    }
  }

  /** A minor version other than 0 turns pipelining on. */
  predicate SaysVersion(line: string) {
    |line| > 7 && line[7] != '0'
  }

  /** A Connection field that mentions close turns it off. */
  predicate SaysClose(line: string) {
    IsField(line, "connection:") && Mentions(line[11..], "close")
  }

  /** A header that decides about pipelining itself. */
  ghost predicate SettlesPipelining(lines: seq<string>) {
    lines != [] && (SaysVersion(lines[0]) || exists k :: 1 <= k < |lines| && SaysClose(lines[k]))
  }

  ghost predicate AnyCloses(lines: seq<string>) {
    exists k :: 0 <= k < |lines| && SaysClose(lines[k])
  }

  lemma {:induction false} FieldsSettle(h: Head, g: Head, lines: seq<string>)
    requires h.status != 0 && g == h.(pipelined := !h.pipelined) && Fold(h, lines).Some?
    ensures Fold(g, lines).Some?
    ensures Fold(g, lines).value.pipelined == Fold(h, lines).value.pipelined <==> AnyCloses(lines)
    decreases |lines|
  {
    hide IsField, Mentions, LengthField;
    FoldAgrees(h, g, lines);
    if lines != [] {
      var rest := lines[1..];
      var h', g' := HeaderField(h, lines[0]).value, HeaderField(g, lines[0]).value;
      if SaysClose(lines[0]) {
        assert h' == g';
      } else {
        FieldsSettle(h', g', rest);
        assert forall k :: 0 <= k < |rest| ==> rest[k] == lines[k + 1];
        assert AnyCloses(lines) ==> AnyCloses(rest) by {
          if AnyCloses(lines) {
            var k :| 0 <= k < |lines| && SaysClose(lines[k]);
            assert rest[k - 1] == lines[k];
          }
        }
      }
    }
  }

  /** Whether pipelining was on before makes no difference exactly to a header that decides itself. */
  lemma PipeliningSettled(p: bool, lines: seq<string>)
    requires lines != [] && Fold(Start(p), lines).Some?
    ensures Fold(Start(!p), lines).Some?
    ensures Fold(Start(!p), lines).value.pipelined == Fold(Start(p), lines).value.pipelined <==> SettlesPipelining(lines)
  {
    hide IsField, Mentions, Decimals, AfterSpace, ValueOf;
    FoldAgrees(Start(p), Start(!p), lines);
    var h, g := StatusLine(Start(p), lines[0]).value, StatusLine(Start(!p), lines[0]).value;
    if SaysVersion(lines[0]) {
      assert h == g;
    } else {
      var rest := lines[1..];
      FieldsSettle(h, g, rest);
      assert forall k :: 1 <= k < |lines| ==> lines[k] == rest[k - 1];
      assert AnyCloses(rest) ==> SettlesPipelining(lines) by {
        if AnyCloses(rest) {
          var k :| 0 <= k < |rest| && SaysClose(rest[k]);
          assert lines[k + 1] == rest[k];
        }
      }
    }
  }

  /** What interim headers leave set for the header behind them; None if they are not all interim headers. */
  function Carried(h: Head, blocks: seq<seq<string>>): Option<Head>
    decreases |blocks|
  {
    if blocks == [] then Some(h)
    else
      var next := Fold(h, blocks[0]);
      if next.None? || !Interim(next.value.status) then None else Carried(next.value.(status := 0), blocks[1..])
  }

  lemma {:induction false} CarriedOn(h: Head, blocks: seq<seq<string>>, rest: Stream)
    requires (forall k :: 0 <= k < |blocks| ==> HeaderOk(blocks[k])) && h.status == 0 && Carried(h, blocks).Some?
    ensures ReadHead(h, Blocks(blocks) + rest) == ReadHead(Carried(h, blocks).value, rest)
    ensures Carried(h, blocks).value.status == 0
    decreases |blocks|
  {
    hide ReadHead, Fold, HeaderOk, Lines;
    if blocks == [] {
      assert Blocks(blocks) + rest == rest;
    } else {
      var more := Blocks(blocks[1..]) + rest;
      assert HeaderOk(blocks[0]);
      assert Blocks(blocks) + rest == Lines(blocks[0]) + "\r\n" + more;
      HeadParses(h, blocks[0], more);
      CarriedOn(Fold(h, blocks[0]).value.(status := 0), blocks[1..], rest);
    }
  }

  /** What is read through interim headers: the response, with what they have set mixed in. */
  lemma ReadThrough(pipelined: bool, blocks: seq<seq<string>>, lines: seq<string>, rest: Stream)
    requires (forall k :: 0 <= k < |blocks| ==> HeaderOk(blocks[k])) && Carried(Start(pipelined), blocks).Some?
    requires var p := Carried(Start(pipelined), blocks).value.pipelined;
      HeaderOk(lines) && Fold(Start(p), lines).Some? && Fold(Start(p), lines).value.status >= 200
    ensures var h := Carried(Start(pipelined), blocks).value;
      ReadHead(Start(pipelined), Blocks(blocks) + (Lines(lines) + "\r\n" + rest))
      == Some((Mixed(Fold(Start(h.pipelined), lines).value, h), rest))
  {
    hide ReadHead, Fold, Lines, HeaderOk, Carried;
    var h := Carried(Start(pipelined), blocks).value;
    CarriedOn(Start(pipelined), blocks, Lines(lines) + "\r\n" + rest);
    assert Mixed(Start(h.pipelined), h) == h;
    FoldMixes(Start(h.pipelined), h, lines);
    HeadParses(h, lines, rest);
  }

  /** The response behind interim headers is read as if they had not been there exactly when everything
      they set, the response sets as well, and pipelining was so before or the response decides about it
      itself. */
  lemma InterimExact(pipelined: bool, blocks: seq<seq<string>>, lines: seq<string>, rest: Stream)
    requires (forall k :: 0 <= k < |blocks| ==> HeaderOk(blocks[k])) && Carried(Start(pipelined), blocks).Some?
    requires HeaderOk(lines) && Fold(Start(pipelined), lines).Some? && Fold(Start(pipelined), lines).value.status >= 200
    ensures var h, f := Carried(Start(pipelined), blocks).value, Fold(Start(pipelined), lines).value;
      ReadHead(Start(pipelined), Blocks(blocks) + (Lines(lines) + "\r\n" + rest)) == ReadHead(Start(pipelined), Lines(lines) + "\r\n" + rest)
      <==> && (h.length != -1 ==> f.length != -1) && (h.chunked ==> f.chunked) && (h.keepalive ==> f.keepalive)
           && (h.pipelined == pipelined || SettlesPipelining(lines))
  {
    hide ReadHead, Lines, HeaderOk, SettlesPipelining, StatusLine, HeaderField, Carried;
    var h, f := Carried(Start(pipelined), blocks).value, Fold(Start(pipelined), lines).value;
    FoldAgrees(Start(pipelined), Start(h.pipelined), lines);
    PipeliningSettled(pipelined, lines);
    ReadThrough(pipelined, blocks, lines, rest);
    HeadParses(Start(pipelined), lines, rest);
  }

  lemma StatusRead(h: Head, version: string, code: string, status: nat)
    requires |version| == 9 && version[..7] == "HTTP/1." && IsDigit(version[7]) && version[8] == ' '
    requires |code| == 3 && forall k :: 0 <= k < 3 ==> IsDigit(code[k])
    requires status == 100 * HexValue(code[0]) + 10 * HexValue(code[1]) + HexValue(code[2]) && 100 <= status <= 599
    ensures StatusLine(h, version + code) == Some(h.(status := status, pipelined := h.pipelined || version[7] != '0'))
  {
    var line := version + code;
    var ds := [HexValue(code[0]), HexValue(code[1]), HexValue(code[2])];
    assert line[..7] == "HTTP/1." && line[7..][0] == version[7] && line[7..][1..][0] == ' ' && line[7..][1..][1..] == code;
    assert AfterSpace(line[7..]) == Some(code);
    assert code[1..][1..] == code[2..] && Decimals(code[2..]) == [ds[2]] && Decimals(code[1..]) == [ds[1]] + [ds[2]];
    assert Decimals(code) == ds;
    assert ds[..2][..1] == [ds[0]] && ValueOf(10, [ds[0]]) == ds[0] && ValueOf(10, ds[..2]) == 10 * ds[0] + ds[1];
    assert ValueOf(10, ds) == status;
  }

  lemma LengthOne()
    ensures LengthField("1") == Some(1)
  {
    assert Decimals("1") == [1] + Decimals("1"[1..]);
  }

  lemma LengthRead(h: Head)
    ensures HeaderField(h, "content-length:1") == Some(h.(length := 1))
  {
    hide LengthField, Mentions, Lower;
    var line := "content-length:1";
    LengthOne();
    assert line[..15] == "content-length:" && line[15..] == "1";
    AlreadyLower("content-length:");
    assert line[..11] == "content-len";
    AlreadyLower("content-len");
  }

  lemma {:induction false} AlreadyLower(s: string)
    requires forall k :: 0 <= k < |s| ==> !('A' <= s[k] <= 'Z')
    ensures Lower(s) == s
  {
    if s != "" {
      AlreadyLower(s[1..]);
    }
  }

  lemma LengthSticks()
    ensures Fold(Start(false), ["HTTP/1.1 103", "content-length:1"]) == Some(Head(103, 1, false, false, true))
    ensures Fold(Start(true), ["HTTP/1.1 200"]) == Some(Head(200, -1, false, false, true))
  {
    hide StatusLine, HeaderField;
    var block := ["HTTP/1.1 103", "content-length:1"];
    assert "HTTP/1.1 " + "103" == "HTTP/1.1 103" && "HTTP/1.1 " + "200" == "HTTP/1.1 200";
    StatusRead(Start(false), "HTTP/1.1 ", "103", 103);
    StatusRead(Start(true), "HTTP/1.1 ", "200", 200);
    LengthRead(Head(103, -1, false, false, true));
    assert block[1..] == ["content-length:1"] && block[1..][1..] == [];
    assert Fold(Head(103, -1, false, false, true), block[1..]) == Some(Head(103, 1, false, false, true));
  }

  /** What such a header does set sticks: a length announced there is read into the response that follows. */
  lemma InterimFieldsStick(rest: Stream)
    ensures ReadHead(Start(false), Blocks([["HTTP/1.1 103", "content-length:1"]]) + (Lines(["HTTP/1.1 200"]) + "\r\n" + rest))
            == Some((Head(200, 1, false, false, true), rest))
  {
    hide ReadHead, Fold, Lines;
    var block, lines := ["HTTP/1.1 103", "content-length:1"], ["HTTP/1.1 200"];
    LengthSticks();
    assert [block][1..] == [] && Carried(Start(false), [block]) == Some(Head(0, 1, false, false, true));
    ReadThrough(false, [block], lines, rest);
  }

  lemma VersionSticks()
    ensures Fold(Start(false), ["HTTP/1.1 100"]) == Some(Head(100, -1, false, false, true))
    ensures Fold(Start(false), ["HTTP/1.0 200"]) == Some(Head(200, -1, false, false, false))
    ensures Fold(Start(true), ["HTTP/1.0 200"]) == Some(Head(200, -1, false, false, true))
  {
    hide StatusLine, HeaderField;
    assert "HTTP/1.1 " + "100" == "HTTP/1.1 100" && "HTTP/1.0 " + "200" == "HTTP/1.0 200";
    StatusRead(Start(false), "HTTP/1.1 ", "100", 100);
    StatusRead(Start(false), "HTTP/1.0 ", "200", 200);
    StatusRead(Start(true), "HTTP/1.0 ", "200", 200);
  }

  /** So does pipelining: a 1.1 interim header turns it on for the 1.0 response behind it. */
  lemma PipeliningSticks(rest: Stream)
    ensures ReadHead(Start(false), Blocks([["HTTP/1.1 100"]]) + (Lines(["HTTP/1.0 200"]) + "\r\n" + rest))
            == Some((Head(200, -1, false, false, true), rest))
    ensures ReadHead(Start(false), Lines(["HTTP/1.0 200"]) + "\r\n" + rest) == Some((Head(200, -1, false, false, false), rest))
  {
    hide ReadHead, Fold, Lines;
    var block, lines := ["HTTP/1.1 100"], ["HTTP/1.0 200"];
    VersionSticks();
    assert [block][1..] == [] && Carried(Start(false), [block]) == Some(Head(0, -1, false, false, true));
    ReadThrough(false, [block], lines, rest);
    HeadParses(Start(false), lines, rest);
  }
}
