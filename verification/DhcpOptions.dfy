/** The option field of a DHCP message (section 2 of RFC 2132) and the boot agent's parser for it. */
module DhcpOptions {
  import opened Words

  const PAD: byte := 0
  const END: byte := 0xFF

  datatype DhcpOption = DhcpOption(code: byte, length: byte, data: seq<byte>)

  /** A length octet as a number of bytes. */
  function Size(length: byte): nat {
    length as nat
  }

  // ---------- The parser ----------

  /** What the parser makes of the bytes from its offset on. */
  function Parsed(data: seq<byte>): seq<DhcpOption>
    decreases |data|
  {
    if |data| < 2 || data[0] == END then []
    else if data[0] == PAD then Parsed(data[1..])
    else
      var n := Size(data[1]);
      if 2 + n > |data| then []
      else [DhcpOption(data[0], data[1], data[2..2 + n])] + Parsed(data[2 + n..])
  }

  /** The parser's step at an offset. */
  lemma ParsedAt(data: seq<byte>, offset: nat)
    requires offset + 2 <= |data|
    ensures var code, n := data[offset], Size(data[offset + 1]);
      Parsed(data[offset..]) ==
        if code == END then []
        else if code == PAD then Parsed(data[offset + 1..])
        else if offset + 2 + n > |data| then []
        else [DhcpOption(code, data[offset + 1], data[offset + 2..offset + 2 + n])] + Parsed(data[offset + 2 + n..])
  {
    hide Size;
    var rest, n := data[offset..], Size(data[offset + 1]);
    assert rest[1..] == data[offset + 1..];
    if offset + 2 + n <= |data| {
      assert rest[2..2 + n] == data[offset + 2..offset + 2 + n];
      assert rest[2 + n..] == data[offset + 2 + n..];
    }
  }

  method ParseOptions(data: seq<byte>) returns (options: seq<DhcpOption>)
    ensures options == Parsed(data)
  {
    hide Size, Parsed;
    options := [];
    var offset := 0;
    assert data[0..] == data;
    while offset + 2 <= |data|
      invariant offset <= |data|
      invariant options + Parsed(data[offset..]) == Parsed(data)
    {
      ParsedAt(data, offset);
      var code := data[offset];
      offset := offset + 1;
      if code == END {
        return;
      }
      if code == PAD {
        continue;
      }
      var length := data[offset];
      offset := offset + 1;
      if offset + Size(length) > |data| {
        return;
      }
      var option := DhcpOption(code, length, data[offset..offset + Size(length)]);
      offset := offset + Size(length);
      options := options + [option];
    }
    ParsedShort(data[offset..]);
  }

  lemma ParsedShort(data: seq<byte>)
    requires |data| < 2
    ensures Parsed(data) == []
  {
  }

  // ---------- The encoding ----------

  /** What stands in an option field: padding octets (section 3.1) and options. */
  datatype Field = Pad | Opt(option: DhcpOption)

  predicate WellFormed(f: Field) {
    f.Opt? ==> f.option.code != PAD && f.option.code != END && |f.option.data| == Size(f.option.length)
  }

  function EncodedField(f: Field): seq<byte> {
    match f
    case Pad => [PAD]
    case Opt(o) => [o.code, o.length] + o.data
  }

  function Encoded(fields: seq<Field>): seq<byte> {
    if fields == [] then [] else EncodedField(fields[0]) + Encoded(fields[1..])
  }

  function OptionsOf(fields: seq<Field>): seq<DhcpOption> {
    if fields == [] then []
    else (match fields[0] case Pad => [] case Opt(o) => [o]) + OptionsOf(fields[1..])
  }

  ghost predicate AllWellFormed(fields: seq<Field>) {
    forall f :: f in fields ==> WellFormed(f)
  }

  /** One field is parsed back, and parsing goes on behind it. */
  lemma ParsedField(f: Field, rest: seq<byte>)
    requires WellFormed(f)
    ensures Parsed(EncodedField(f) + rest) == OptionsOf([f]) + Parsed(rest)
  {
    hide Size;
    var data := EncodedField(f) + rest;
    match f
    case Pad =>
      assert data[1..] == rest;
    case Opt(o) =>
      var n := Size(o.length);
      assert data[2..2 + n] == o.data && data[2 + n..] == rest;
      assert DhcpOption(data[0], data[1], o.data) == o;
      assert [f][1..] == [];
  }

  lemma {:induction false} ParsedFields(fields: seq<Field>, rest: seq<byte>)
    requires AllWellFormed(fields)
    ensures Parsed(Encoded(fields) + rest) == OptionsOf(fields) + Parsed(rest)
  {
    hide Parsed, EncodedField, WellFormed;
    if fields == [] {
      assert Encoded(fields) + rest == rest;
    } else {
      var rest' := Encoded(fields[1..]) + rest;
      assert Encoded(fields) + rest == EncodedField(fields[0]) + rest';
      ParsedField(fields[0], rest');
      ParsedFields(fields[1..], rest);
      OptionsFirst(fields);
    }
  }

  lemma OptionsFirst(fields: seq<Field>)
    requires fields != []
    ensures OptionsOf(fields) == OptionsOf([fields[0]]) + OptionsOf(fields[1..])
  {
    assert [fields[0]][1..] == [];
  }

  /** Parsing inverts the encoding: whatever the padding, and whatever follows the end marker
      (section 3.2), exactly the encoded options come back. */
  lemma ParseInvertsEncoding(fields: seq<Field>, trailing: seq<byte>)
    requires AllWellFormed(fields)
    ensures Parsed(Encoded(fields) + ([END] + trailing)) == OptionsOf(fields)
    ensures Parsed(Encoded(fields)) == OptionsOf(fields)
  {
    ParsedFields(fields, [END] + trailing);
    ParsedFields(fields, []);
    assert Encoded(fields) + [] == Encoded(fields);
  }

  // ---------- Cut input ----------

  /** Where field i ends. */
  function EndOf(fields: seq<Field>, i: nat): nat
    requires i < |fields|
  {
    |Encoded(fields[..i])| + |EncodedField(fields[i])|
  }

  /** A field that is cut short yields nothing. */
  lemma CutField(f: Field, k: nat)
    requires WellFormed(f) && k < |EncodedField(f)|
    ensures Parsed(EncodedField(f)[..k]) == []
  {
    hide Size;
  }

  lemma LaterEnds(fields: seq<Field>)
    requires fields != []
    ensures EndOf(fields, 0) == |EncodedField(fields[0])|
    ensures forall i :: 1 <= i < |fields| ==> EndOf(fields, i) == |EncodedField(fields[0])| + EndOf(fields[1..], i - 1)
  {
    forall i | 1 <= i < |fields|
      ensures EndOf(fields, i) == |EncodedField(fields[0])| + EndOf(fields[1..], i - 1)
    {
      assert fields[..i][1..] == fields[1..][..i - 1];
    }
  }

  /** Input cut at any byte k yields exactly the options whose encoding lies within k. */
  lemma {:induction false} CutInput(fields: seq<Field>, k: nat) returns (m: nat)
    requires AllWellFormed(fields) && k <= |Encoded(fields)|
    ensures m <= |fields| && forall i :: 0 <= i < |fields| ==> (i < m <==> EndOf(fields, i) <= k)
    ensures Parsed(Encoded(fields)[..k]) == OptionsOf(fields[..m])
  {
    hide Parsed, EncodedField, WellFormed;
    if fields == [] {
      m := 0;
      ParsedShort([]);
    } else {
      var n := |EncodedField(fields[0])|;
      LaterEnds(fields);
      if k < n {
        m := 0;
        CutField(fields[0], k);
        assert Encoded(fields)[..k] == EncodedField(fields[0])[..k];
      } else {
        var m' := CutInput(fields[1..], k - n);
        m := m' + 1;
        var rest := Encoded(fields[1..])[..k - n];
        assert Encoded(fields)[..k] == EncodedField(fields[0]) + rest;
        ParsedField(fields[0], rest);
        assert fields[..m][1..] == fields[1..][..m'];
        OptionsFirst(fields[..m]);
      }
    }
  }
}
