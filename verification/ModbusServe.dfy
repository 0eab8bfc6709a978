/**
 * One query served: the reply is drafted in a buffer, its length is set when it is sent.
 */
module ModbusServe {
  import opened Bitwise
  import opened ModbusSpec
  import opened ModbusLine
  import opened ModbusSlave

  // ---- Sending -------------------------------------------------------------------------------------

  /** A message with its length field set; for a length below 6 the field wraps. */
  function SetLength(m: seq<byte>, n: int): (r: seq<byte>)
    requires |m| >= 6
    ensures |r| == |m|
  {
    m[4 := (n - 6) / 256 % 256][5 := (n - 6) % 256]
  }

  method SetMessageLengthTcp(msg: array<byte>, n: int)
    requires msg.Length >= 6
    modifies msg
    ensures msg[..] == SetLength(old(msg[..]), n)
  {
    var mbapLength := n - 6;
    msg[4] := mbapLength / 256 % 256;
    msg[5] := mbapLength % 256;
  }

  /** Sends n bytes of a message; a length of 0 sends nothing. */
  method ModbusSend(line: Line, msg: array<byte>, n: nat) returns (ret: int)
    requires 6 <= msg.Length && n <= msg.Length
    modifies line, msg
    ensures ret == n && msg[..] == SetLength(old(msg[..]), n)
    ensures line.bytes == old(line.bytes) + SetLength(old(msg[..]), n)[..n]
  {
    SetMessageLengthTcp(msg, n);
    line.Put(msg, n);
    ret := n;
  }

  /** The first n bytes of the buffer are the message, but for the length field. */
  ghost predicate Drafted(buffer: seq<byte>, n: nat, message: seq<byte>) {
    6 <= |buffer| && n <= |buffer| && SetLength(buffer, n)[..n] == message
  }

  lemma DraftedMessage(b: seq<byte>, head: seq<byte>, body: seq<byte>)
    requires |head| == 4 && |body| < 65536 && 6 + |body| <= |b|
    requires b[..4] == head && b[6..6 + |body|] == body
    ensures Drafted(b, 6 + |body|, Message(head, body))
  {
    var n := 6 + |body|;
    var s, m := SetLength(b, n)[..n], Message(head, body);
    forall k | 0 <= k < n ensures s[k] == m[k] {
      if k < 4 {
        assert b[..4][k] == head[k];
      } else if k >= 6 {
        assert b[6..6 + |body|][k - 6] == body[k - 6];
      }
    }
  }

  // ---- Replies -------------------------------------------------------------------------------------

  /** The eight bytes at the head of a reply. */
  ghost predicate Headed(b: seq<byte>, q: seq<byte>, f: byte) {
    && |b| == MAX_MESSAGE_LENGTH && |q| >= 12
    && b[0] == q[0] && b[1] == q[1] && b[2] == 0 && b[3] == 0 && b[6] == q[6] && b[7] == f
  }

  lemma DraftedReply(b: seq<byte>, q: seq<byte>, f: byte, data: seq<byte>)
    requires Headed(b, q, f) && 8 + |data| <= |b| && b[8..8 + |data|] == data
    ensures Drafted(b, 8 + |data|, Reply(q, f, data))
  {
    assert b[..4] == [q[0], q[1], 0, 0];
    assert b[6..8 + |data|] == [q[6], f] + data;
    DraftedMessage(b, [q[0], q[1], 0, 0], [q[6], f] + data);
  }

  method BuildResponseBasis(slave: byte, f: byte, tId: word, response: array<byte>, ghost q: seq<byte>) returns (n: nat)
    requires response.Length == MAX_MESSAGE_LENGTH && |q| >= 12 && slave == q[6] && tId == Word(q[0], q[1])
    modifies response
    ensures n == 8 && Headed(response[..], q, f)
  {
    response[0], response[1] := Hi(tId), Lo(tId);
    response[2], response[3] := 0, 0;
    response[6], response[7] := slave, f;
    n := 8;
  }

  method ResponseException(slave: byte, f: byte, tId: word, code: int, response: array<byte>, ghost q: seq<byte>)
      returns (n: nat)
    requires response.Length == MAX_MESSAGE_LENGTH && |q| >= 12 && slave == q[6] && tId == Word(q[0], q[1]) && f == q[7]
    requires -12 <= code < 0
    modifies response
    ensures Drafted(response[..], n, Exception(q, code))
  {
    var function_ := (f as int + 0x80) % 256;
    n := BuildResponseBasis(slave, function_, tId, response, q);
    response[n] := -code;
    n := n + 1;
    assert response[8..9] == [-code];
    DraftedReply(response[..], q, function_, [-code]);
  }

  lemma DataBehindCount(b0: seq<byte>, q: seq<byte>, f: byte, count: byte, data: seq<byte>)
    requires Headed(b0, q, f) && 9 + |data| <= MAX_MESSAGE_LENGTH
    ensures 9 + |data| <= |b0[8 := count]|
    ensures Drafted(Splice(b0[8 := count], 9, data), 9 + |data|, Reply(q, f, [count] + data))
  {
    var b := Splice(b0[8 := count], 9, data);
    assert b[8..9 + |data|] == [count] + data;
    DraftedReply(b, q, f, [count] + data);
  }

  lemma BitsWithin(q: seq<byte>, table: seq<byte>)
    requires |q| >= 12 && (Within(q, |table|) ==> 9 + Bytes(Count(q)) <= MAX_MESSAGE_LENGTH)
    ensures Address(q) == Word(q[8], q[9]) && Count(q) == Word(q[10], q[11])
    ensures -12 <= ILLEGAL_DATA_ADDRESS < 0 && MAX_MESSAGE_LENGTH == 256
    ensures Within(q, |table|) <==> Address(q) + Count(q) <= |table|
    ensures !Within(q, |table|) ==> BitsReply(q, table) == Exception(q, ILLEGAL_DATA_ADDRESS)
  {
    hide Word, Exception, Reply, Bytes;
  }

  lemma WordsWithin(q: seq<byte>, table: seq<word>)
    requires |q| >= 12 && (Within(q, |table|) ==> 9 + 2 * Count(q) <= MAX_MESSAGE_LENGTH)
    ensures Address(q) == Word(q[8], q[9]) && Count(q) == Word(q[10], q[11])
    ensures -12 <= ILLEGAL_DATA_ADDRESS < 0 && MAX_MESSAGE_LENGTH == 256
    ensures Within(q, |table|) <==> Address(q) + Count(q) <= |table|
    ensures !Within(q, |table|) ==> WordsReply(q, table) == Exception(q, ILLEGAL_DATA_ADDRESS)
  {
    hide Word, Exception, Reply;
  }

  lemma BitsLength(cells: seq<byte>)
    ensures |PackBits(cells)| == Bytes(|cells|)
  {
  }

  lemma WordsLength(words: seq<word>)
    ensures |PackWords(words)| == 2 * |words|
  {
  }

  /** The reply to a read inside the table. */
  lemma BitsDrafted(b: seq<byte>, n: nat, q: seq<byte>, table: seq<byte>)
    requires |q| >= 12 && Within(q, |table|) && 9 + Bytes(Count(q)) <= MAX_MESSAGE_LENGTH
    requires var cells := table[Address(q)..Address(q) + Count(q)];
      |PackBits(cells)| < 255 && Drafted(b, n, Reply(q, q[7], [Bytes(Count(q))] + PackBits(cells)))
    ensures Drafted(b, n, BitsReply(q, table))
  {
    hide Drafted, Reply, Address, Count;
  }

  method AnswerBits(q: array<byte>, address: word, nb: word, tId: word, tab: array<byte>, response: array<byte>,
                    ghost query: seq<byte>, ghost table: seq<byte>)
      returns (n: nat)
    requires q.Length >= 12 && response.Length == MAX_MESSAGE_LENGTH && response as object != tab
    requires query == q[..] && table == tab[..] && tId == Word(q[0], q[1]) && Within(query, |table|)
    requires address == Address(query) && nb == Count(query) && 9 + Bytes(nb) <= MAX_MESSAGE_LENGTH
    modifies response
    ensures Drafted(response[..], n, BitsReply(query, table))
  {
    hide *;
    BitsWithin(query, table);
    ghost var cells := table[address..address + nb];
    assert tab[address..address + nb] == cells;
    BitsLength(cells);
    n := BuildResponseBasis(q[6], q[7], tId, response, query);
    assert tab[address..address + nb] == cells;
    DataBehindCount(response[..], query, query[7], Bytes(nb), PackBits(cells));
    Store(response, n, Bytes(nb));
    n := n + 1;
    n := ResponseIoStatus(address, nb, tab, response, n, cells);
    BitsDrafted(response[..], n, query, table);
  }

  /** Reading coils or inputs. */
  method ReadBitsCase(q: array<byte>, tab: array<byte>, response: array<byte>) returns (n: nat)
    requires q.Length >= 12 && response.Length == MAX_MESSAGE_LENGTH && response != q && response as object != tab
    requires Within(q[..], tab.Length) ==> 9 + Bytes(Count(q[..])) <= MAX_MESSAGE_LENGTH
    modifies response
    ensures Drafted(response[..], n, BitsReply(q[..], tab[..]))
  {
    var address, nb, tId := Word(q[8], q[9]), Word(q[10], q[11]), Word(q[0], q[1]);
    ghost var query, table := q[..], tab[..];
    BitsWithin(query, table);
    hide *;
    if address + nb > tab.Length {
      n := ResponseException(q[6], q[7], tId, ILLEGAL_DATA_ADDRESS, response, query);
    } else {
      n := AnswerBits(q, address, nb, tId, tab, response, query, table);
    }
    assert q[..] == query && tab[..] == table;
  }

  /** The reply to a read inside the table. */
  lemma WordsDrafted(b: seq<byte>, n: nat, q: seq<byte>, table: seq<word>)
    requires |q| >= 12 && Within(q, |table|) && 9 + 2 * Count(q) <= MAX_MESSAGE_LENGTH
    requires var cells := table[Address(q)..Address(q) + Count(q)];
      |PackWords(cells)| < 255 && Drafted(b, n, Reply(q, q[7], [2 * Count(q)] + PackWords(cells)))
    ensures Drafted(b, n, WordsReply(q, table))
  {
    hide Drafted, Reply, Address, Count;
  }

  method AnswerWords(q: array<byte>, address: word, nb: word, tId: word, tab: array<word>, response: array<byte>,
                    ghost query: seq<byte>, ghost table: seq<word>)
      returns (n: nat)
    requires q.Length >= 12 && response.Length == MAX_MESSAGE_LENGTH && response as object != tab
    requires query == q[..] && table == tab[..] && tId == Word(q[0], q[1]) && Within(query, |table|)
    requires address == Address(query) && nb == Count(query) && 9 + 2 * nb <= MAX_MESSAGE_LENGTH
    modifies response
    ensures Drafted(response[..], n, WordsReply(query, table))
  {
    hide *;
    WordsWithin(query, table);
    ghost var cells := table[address..address + nb];
    assert tab[address..address + nb] == cells;
    WordsLength(cells);
    n := BuildResponseBasis(q[6], q[7], tId, response, query);
    assert tab[address..address + nb] == cells;
    DataBehindCount(response[..], query, query[7], 2 * nb, PackWords(cells));
    Store(response, n, 2 * nb);
    n := n + 1;
    n := ResponseRegisters(address, nb, tab, response, n, cells);
    WordsDrafted(response[..], n, query, table);
  }

  /** Reading registers. */
  method ReadWordsCase(q: array<byte>, tab: array<word>, response: array<byte>) returns (n: nat)
    requires q.Length >= 12 && response.Length == MAX_MESSAGE_LENGTH && response != q && response as object != tab
    requires Within(q[..], tab.Length) ==> 9 + 2 * Count(q[..]) <= MAX_MESSAGE_LENGTH
    modifies response
    ensures Drafted(response[..], n, WordsReply(q[..], tab[..]))
  {
    var address, nb, tId := Word(q[8], q[9]), Word(q[10], q[11]), Word(q[0], q[1]);
    ghost var query, table := q[..], tab[..];
    WordsWithin(query, table);
    hide *;
    if address + nb > tab.Length {
      n := ResponseException(q[6], q[7], tId, ILLEGAL_DATA_ADDRESS, response, query);
    } else {
      n := AnswerWords(q, address, nb, tId, tab, response, query, table);
    }
    assert q[..] == query && tab[..] == table;
  }

  /** A single write is confirmed by the query itself. */
  method EchoQuery(q: array<byte>, length: nat, response: array<byte>) returns (n: nat)
    requires 12 <= length <= q.Length == MAX_MESSAGE_LENGTH == response.Length && response != q
    modifies response
    ensures Drafted(response[..], n, Echo(q[..], length))
  {
    forall k | 0 <= k < length {
      response[k] := q[k];
    }
    n := length;
    ghost var query := q[..];
    assert response[..4] == query[..4];
    assert response[6..length] == query[6..length];
    DraftedMessage(response[..], query[..4], query[6..length]);
  }

  method ForceSingleCoil(q: array<byte>, length: nat, coils: array<byte>, response: array<byte>) returns (n: nat)
    requires 12 <= length <= q.Length == MAX_MESSAGE_LENGTH == response.Length
    requires response != q && response != coils && q != coils
    modifies response, coils
    ensures var addr, data, was := Address(q[..]), Count(q[..]), old(coils[..]);
      && (addr >= |was| ==> coils[..] == was && Drafted(response[..], n, Exception(q[..], ILLEGAL_DATA_ADDRESS)))
      && (addr < |was| && (data == 0xFF00 || data == 0) ==>
            && coils[..] == was[addr := if data != 0 then 1 else 0]
            && Drafted(response[..], n, Echo(q[..], length)))
      && (addr < |was| && data != 0xFF00 && data != 0 ==>
            coils[..] == was && Drafted(response[..], n, Exception(q[..], ILLEGAL_DATA_VALUE)))
  {
    var address, data, tId := Word(q[8], q[9]), Word(q[10], q[11]), Word(q[0], q[1]);
    ghost var query := q[..];
    assert Address(query) == address && Count(query) == data;
    if address >= coils.Length {
      n := ResponseException(q[6], q[7], tId, ILLEGAL_DATA_ADDRESS, response, query);
    } else if data == 0xFF00 || data == 0 {
      Store(coils, address, if data != 0 then 1 else 0);
      n := EchoQuery(q, length, response);
    } else {
      n := ResponseException(q[6], q[7], tId, ILLEGAL_DATA_VALUE, response, query);
    }
  }

  method PresetSingleRegister(q: array<byte>, length: nat, holding: array<word>, response: array<byte>) returns (n: nat)
    requires 12 <= length <= q.Length == MAX_MESSAGE_LENGTH == response.Length
    requires response != q && response as object != holding && q as object != holding
    modifies response, holding
    ensures var addr, was := Address(q[..]), old(holding[..]);
      && (addr >= |was| ==> holding[..] == was && Drafted(response[..], n, Exception(q[..], ILLEGAL_DATA_ADDRESS)))
      && (addr < |was| ==>
            holding[..] == was[addr := Count(q[..])] && Drafted(response[..], n, Echo(q[..], length)))
  {
    var address, data, tId := Word(q[8], q[9]), Word(q[10], q[11]), Word(q[0], q[1]);
    ghost var query := q[..];
    assert Address(query) == address && Count(query) == data;
    if address >= holding.Length {
      n := ResponseException(q[6], q[7], tId, ILLEGAL_DATA_ADDRESS, response, query);
    } else {
      Store(holding, address, data);
      n := EchoQuery(q, length, response);
    }
  }

  /** A multiple write is confirmed by address and count. */
  method Confirm(q: array<byte>, response: array<byte>) returns (n: nat)
    requires q.Length == MAX_MESSAGE_LENGTH == response.Length && response != q
    modifies response
    ensures Drafted(response[..], n, Reply(q[..], q[7], q[..][8..12]))
  {
    ghost var query := q[..];
    n := BuildResponseBasis(q[6], q[7], Word(q[0], q[1]), response, query);
    ghost var b0 := response[..];
    forall k | n <= k < n + 4 {
      response[k] := q[k];
    }
    n := n + 4;
    ghost var b := response[..];
    assert forall k | 0 <= k < 8 :: b[k] == b0[k];
    assert b[8..8 + 4] == query[8..12];
    DraftedReply(b, query, q[7], query[8..12]);
  }

  method ForceMultipleCoils(q: array<byte>, coils: array<byte>, response: array<byte>) returns (n: nat)
    requires q.Length == MAX_MESSAGE_LENGTH == response.Length
    requires response != q && response != coils && q != coils
    requires Within(q[..], coils.Length) ==> 13 + Bytes(Count(q[..])) <= MAX_MESSAGE_LENGTH
    modifies response, coils
    ensures var addr, nb, was := Address(q[..]), Count(q[..]), old(coils[..]);
      && (addr + nb > |was| ==> coils[..] == was && Drafted(response[..], n, Exception(q[..], ILLEGAL_DATA_ADDRESS)))
      && (addr + nb <= |was| ==>
            && nb <= 8 * |q[..][13..]|
            && coils[..] == Splice(was, addr, UnpackBits(q[..][13..], nb))
            && Drafted(response[..], n, Reply(q[..], q[7], q[..][8..12])))
  {
    var address, nb, tId := Word(q[8], q[9]), Word(q[10], q[11]), Word(q[0], q[1]);
    ghost var query := q[..];
    assert Address(query) == address && Count(query) == nb && query[13..] == q[13..];
    if address + nb > coils.Length {
      n := ResponseException(q[6], q[7], tId, ILLEGAL_DATA_ADDRESS, response, query);
    } else {
      SetBitsFromBytes(coils, address, nb, q, 13);
      n := Confirm(q, response);
    }
  }

  method PresetMultipleRegisters(q: array<byte>, holding: array<word>, response: array<byte>) returns (n: nat)
    requires q.Length == MAX_MESSAGE_LENGTH == response.Length
    requires response != q && response as object != holding && q as object != holding
    requires Within(q[..], holding.Length) ==> 13 + 2 * Count(q[..]) <= MAX_MESSAGE_LENGTH
    modifies response, holding
    ensures var addr, nb, was := Address(q[..]), Count(q[..]), old(holding[..]);
      && (addr + nb > |was| ==> holding[..] == was && Drafted(response[..], n, Exception(q[..], ILLEGAL_DATA_ADDRESS)))
      && (addr + nb <= |was| ==>
            && holding[..] == Splice(was, addr, UnpackWords(q[..][13..], nb))
            && Drafted(response[..], n, Reply(q[..], q[7], q[..][8..12])))
  {
    var address, nb, tId := Word(q[8], q[9]), Word(q[10], q[11]), Word(q[0], q[1]);
    ghost var query := q[..];
    assert Address(query) == address && Count(query) == nb && query[13..] == q[13..];
    if address + nb > holding.Length {
      n := ResponseException(q[6], q[7], tId, ILLEGAL_DATA_ADDRESS, response, query);
    } else {
      SetRegistersFromBytes(holding, address, nb, q, 13);
      n := Confirm(q, response);
    }
  }

  /** The switch on the function code: changes the tables and drafts the reply, none for an unknown function. */
  method Dispatch(q: array<byte>, length: nat, m: Mapping, response: array<byte>) returns (n: nat)
    requires m.Valid() && m.Apart(q) && m.Apart(response) && q != response && response.Length == MAX_MESSAGE_LENGTH
    requires Fits(q[..], length, m.Abs())
    modifies response, m.coils, m.holding
    ensures m.Abs() == Serve(q[..], length, old(m.Abs())).tables
    ensures Drafted(response[..], n, Serve(q[..], length, old(m.Abs())).reply)
  {
    hide Drafted, Exception, Reply, Echo, UnpackBits, UnpackWords, BitsReply, WordsReply, Splice, Address, Count;
    var f := q[7];
    if f == READ_COIL_STATUS {
      n := ReadBitsCase(q, m.coils, response);
    } else if f == READ_INPUT_STATUS {
      n := ReadBitsCase(q, m.inputs, response);
    } else if f == READ_HOLDING_REGISTERS {
      n := ReadWordsCase(q, m.holding, response);
    } else if f == READ_INPUT_REGISTERS {
      n := ReadWordsCase(q, m.inputRegisters, response);
    } else if f == FORCE_SINGLE_COIL {
      n := ForceSingleCoil(q, length, m.coils, response);
    } else if f == PRESET_SINGLE_REGISTER {
      n := PresetSingleRegister(q, length, m.holding, response);
    } else if f == FORCE_MULTIPLE_COILS {
      n := ForceMultipleCoils(q, m.coils, response);
    } else if f == PRESET_MULTIPLE_REGISTERS {
      n := PresetMultipleRegisters(q, m.holding, response);
    } else {
      n := 0;
      NothingDrafted(response[..]);
    }
  }

  lemma NothingDrafted(b: seq<byte>)
    requires |b| >= 6
    ensures Drafted(b, 0, [])
  {
  }

  /** Serves the query in the buffer and sends the reply. */
  method ManageQuery(q: array<byte>, length: nat, m: Mapping, down: Line)
    requires m.Valid() && m.Apart(q) && Fits(q[..], length, m.Abs())
    modifies down, m.coils, m.holding
    ensures m.Abs() == Serve(q[..], length, old(m.Abs())).tables
    ensures down.bytes == old(down.bytes) + Serve(q[..], length, old(m.Abs())).reply
  {
    ghost var served := Serve(q[..], length, m.Abs());
    var response := new byte[MAX_MESSAGE_LENGTH];
    assert q[..] == old(q[..]) && m.Abs() == old(m.Abs());
    var n := Dispatch(q, length, m, response);
    assert SetLength(response[..], n)[..n] == served.reply;
    hide *;
    ghost var tables := m.Abs();
    var sent := ModbusSend(down, response, n);
    assert m.Abs() == tables;
  }
}
