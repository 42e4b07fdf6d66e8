/** The byte form in which a peg-out travels together with its id. */
module PegoutCodec {
  import opened Options
  import opened Bytes
  import opened PegoutIds

  const PEGOUT_VERSION: Byte := 0

  /** The discriminants of the five Bitcoin networks. */
  type Network = n: nat | n < 5

  /** A parsed address; its meaning is left to the address library. */
  datatype Address = Address(content: nat)

  datatype PegoutWithId = PegoutWithId(amount: U64, destination: Address, network: Network, id: PegoutId)

  /** The address library: text of an address, its parser on bytes (`None` unless UTF-8 and well formed) and the
      networks an address is valid for. */
  datatype Addresses = Addresses(
    show: Address -> Bytes, utf8: Bytes -> bool, parse: Bytes -> Option<Address>, fits: (Address, Network) -> bool)
  {
    ghost predicate RoundTrips() {
      forall a: Address :: utf8(show(a)) && parse(show(a)) == Some(a)
    }
  }

  datatype PegoutError =
    | WrongVersion(version: Byte) | InvalidVersion | InvalidAmount | InsufficientBytesForAddress
    | InvalidAddressUtf8 | InvalidAddressFormat | UnknownNetwork | AddressNotValidForNetwork
    | InsufficientBytesForPegoutId

  datatype Part<+T> = Bad(error: PegoutError) | Good(value: T, rest: Bytes) {
    predicate IsFailure() { Bad? }
    function PropagateFailure<U>(): Part<U> requires Bad? { Bad(error) }
    function Extract(): (T, Bytes) requires Good? { (value, rest) }
  }

  /** The text of the address has a length that fits 64 bits. */
  predicate Encodable(a: Addresses, p: PegoutWithId) {
    |a.show(p.destination)| <= 0xFFFF_FFFF_FFFF_FFFF
  }

  /** The read, with another name for its failure. */
  function OrElse<T>(r: Read<T>, error: PegoutError): Part<T> {
    if r.Fail? then Bad(error) else Good(r.value, r.rest)
  }

  // ---------- encoding ----------

  function EncodeAddress(a: Addresses, d: Address): (b: Bytes)
    requires |a.show(d)| <= 0xFFFF_FFFF_FFFF_FFFF
  {
    EncodeVarInt(|a.show(d)|) + a.show(d)
  }

  function EncodePegout(a: Addresses, p: PegoutWithId): (b: Bytes)
    requires Encodable(a, p)
  {
    ([PEGOUT_VERSION] + EncodeLE(p.amount, 8)) + (EncodeAddress(a, p.destination) + ([p.network] + AsBytes(p.id)))
  }

  /** `PegoutWithId::serialize`: appends one field after the other. */
  method SerializePegout(a: Addresses, p: PegoutWithId) returns (bytes: Bytes)
    requires Encodable(a, p)
    ensures bytes == EncodePegout(a, p)
  {
    bytes := [PEGOUT_VERSION];
    bytes := bytes + EncodeLE(p.amount, 8);
    var text := a.show(p.destination);
    ghost var head := bytes;
    bytes := bytes + EncodeVarInt(|text|);
    bytes := bytes + text;
    Assoc(head, EncodeVarInt(|text|), text);
    bytes := bytes + [p.network];
    bytes := bytes + AsBytes(p.id);
    Assoc(head + EncodeAddress(a, p.destination), [p.network], AsBytes(p.id));
    Assoc(head, EncodeAddress(a, p.destination), [p.network] + AsBytes(p.id));
  }

  // ---------- decoding ----------

  function DecodeAmount(b: Bytes): (r: Part<U64>) {
    Widths();
    var (version, b1) :- OrElse(Take(b, 1), PegoutError.InvalidVersion);
    if version[0] != PEGOUT_VERSION then Bad(WrongVersion(version[0]))
    else
      var (amount, rest) :- OrElse(Take(b1, 8), InvalidAmount);
      Good(DecodeLE(amount), rest)
  }

  function DecodeAddress(a: Addresses, b: Bytes): (r: Part<Address>) {
    var (len, b1) :- OrElse(DecodeVarInt(b), PegoutError.InvalidVersion);
    var (text, rest) :- OrElse(Take(b1, len), InsufficientBytesForAddress);
    if !a.utf8(text) then Bad(InvalidAddressUtf8)
    else if a.parse(text).None? then Bad(InvalidAddressFormat)
    else Good(a.parse(text).value, rest)
  }

  function DecodeNetwork(a: Addresses, d: Address, b: Bytes): (r: Part<Network>) {
    var (network, rest) :- OrElse(Take(b, 1), PegoutError.InvalidVersion);
    if network[0] >= 5 then Bad(UnknownNetwork)
    else if !a.fits(d, network[0]) then Bad(AddressNotValidForNetwork)
    else Good(network[0], rest)
  }

  function DecodeId(b: Bytes): (r: Part<PegoutId>) {
    var (id, rest) :- OrElse(Take(b, 36), InsufficientBytesForPegoutId);
    Good(FromBytes(id).value, rest)
  }

  /** `PegoutWithId::deserialize`; the source drops what is left over. */
  function DecodePegout(a: Addresses, b: Bytes): (r: Part<PegoutWithId>) {
    var (amount, b1) :- DecodeAmount(b);
    var (destination, b2) :- DecodeAddress(a, b1);
    var (network, b3) :- DecodeNetwork(a, destination, b2);
    var (id, rest) :- DecodeId(b3);
    Good(PegoutWithId(amount, destination, network, id), rest)
  }

  // ---------- round trip ----------

  lemma AmountRoundTrip(n: U64, rest: Bytes)
    ensures DecodeAmount(([PEGOUT_VERSION] + EncodeLE(n, 8)) + rest) == Good(n, rest)
  {
    Widths();
    Assoc([PEGOUT_VERSION], EncodeLE(n, 8), rest);
    TakeFront([PEGOUT_VERSION], EncodeLE(n, 8) + rest);
    TakeFront(EncodeLE(n, 8), rest);
    LittleEndianRoundTrip(n, 8);
  }

  lemma AddressRoundTrip(a: Addresses, d: Address, rest: Bytes)
    requires a.RoundTrips() && |a.show(d)| <= 0xFFFF_FFFF_FFFF_FFFF
    ensures DecodeAddress(a, EncodeAddress(a, d) + rest) == Good(d, rest)
  {
    var text := a.show(d);
    Assoc(EncodeVarInt(|text|), text, rest);
    VarIntRoundTrip(|text|, text + rest);
    TakeFront(text, rest);
  }

  lemma NetworkAndIdRoundTrip(a: Addresses, p: PegoutWithId, rest: Bytes)
    requires a.fits(p.destination, p.network)
    ensures DecodeNetwork(a, p.destination, ([p.network] + AsBytes(p.id)) + rest)
            == Good(p.network, AsBytes(p.id) + rest)
    ensures DecodeId(AsBytes(p.id) + rest) == Good(p.id, rest)
  {
    Assoc([p.network], AsBytes(p.id), rest);
    TakeFront([p.network], AsBytes(p.id) + rest);
    TakeFront(AsBytes(p.id), rest);
    IdBytesRoundTrip(p.id, []);
  }

  /** Every peg-out whose address is valid for its network comes back, whatever follows it. */
  lemma PegoutRoundTrip(a: Addresses, p: PegoutWithId, rest: Bytes)
    requires a.RoundTrips() && Encodable(a, p) && a.fits(p.destination, p.network)
    ensures DecodePegout(a, EncodePegout(a, p) + rest) == Good(p, rest)
  {
    var head, tail := [PEGOUT_VERSION] + EncodeLE(p.amount, 8), [p.network] + AsBytes(p.id);
    var address := EncodeAddress(a, p.destination);
    Assoc(head, address + tail, rest);
    Assoc(address, tail, rest);
    AmountRoundTrip(p.amount, address + (tail + rest));
    AddressRoundTrip(a, p.destination, tail + rest);
    NetworkAndIdRoundTrip(a, p, rest);
  }

  // ---------- what is accepted ----------

  lemma AmountSound(b: Bytes)
    requires DecodeAmount(b).Good?
    ensures b == ([0] + EncodeLE(DecodeAmount(b).value, 8)) + DecodeAmount(b).rest
  {
    LittleEndianCanonical(b[1..][..8]);
    assert b == [b[0]] + (b[1..][..8] + b[1..][8..]);
  }

  lemma AddressSound(a: Addresses, b: Bytes) returns (text: Bytes)
    requires DecodeAddress(a, b).Good?
    ensures |text| <= 0xFFFF_FFFF_FFFF_FFFF && a.utf8(text) && a.parse(text) == Some(DecodeAddress(a, b).value)
    ensures b == EncodeVarInt(|text|) + (text + DecodeAddress(a, b).rest)
  {
    VarIntCanonical(b);
    text := Take(DecodeVarInt(b).rest, DecodeVarInt(b).value).value;
  }

  lemma NetworkAndIdSound(a: Addresses, d: Address, b: Bytes)
    requires DecodeNetwork(a, d, b).Good? && DecodeId(DecodeNetwork(a, d, b).rest).Good?
    ensures a.fits(d, DecodeNetwork(a, d, b).value)
    ensures var r := DecodeId(DecodeNetwork(a, d, b).rest);
            b == [DecodeNetwork(a, d, b).value] + (AsBytes(r.value) + r.rest)
  {
    var rest := DecodeNetwork(a, d, b).rest;
    IdBytesRoundTrip(DecodeId(rest).value, rest[..36]);
  }

  /** Whatever is decoded has version 0, minimal lengths, an address text that parses and fits the network, and the
      36 bytes of the id: all but the spelling of the address is determined by the result. */
  lemma PegoutSound(a: Addresses, b: Bytes) returns (text: Bytes)
    requires DecodePegout(a, b).Good?
    ensures |text| <= 0xFFFF_FFFF_FFFF_FFFF
    ensures var p, rest := DecodePegout(a, b).value, DecodePegout(a, b).rest;
            && a.utf8(text) && a.parse(text) == Some(p.destination) && a.fits(p.destination, p.network)
            && b == ([0] + EncodeLE(p.amount, 8))
                    + (EncodeVarInt(|text|) + (text + ([p.network] + (AsBytes(p.id) + rest))))
  {
    AmountSound(b);
    var b1 := DecodeAmount(b).rest;
    text := AddressSound(a, b1);
    NetworkAndIdSound(a, DecodeAddress(a, b1).value, DecodeAddress(a, b1).rest);
  }

  // ---------- truncation ----------

  lemma TakeMore(b: Bytes, n: nat, more: Bytes)
    requires n <= |b|
    ensures Take(b + more, n) == Done(Take(b, n).value, Take(b, n).rest + more)
  {
    assert (b + more)[..n] == b[..n] && (b + more)[n..] == b[n..] + more;
  }

  lemma VarIntMore(b: Bytes, more: Bytes)
    requires DecodeVarInt(b).Done?
    ensures DecodeVarInt(b + more) == Done(DecodeVarInt(b).value, DecodeVarInt(b).rest + more)
  {
    var n, rest := DecodeVarInt(b).value, DecodeVarInt(b).rest;
    VarIntCanonical(b);
    Assoc(EncodeVarInt(n), rest, more);
    VarIntRoundTrip(n, rest + more);
  }

  lemma AmountMore(b: Bytes, more: Bytes)
    requires DecodeAmount(b).Good?
    ensures DecodeAmount(b + more) == Good(DecodeAmount(b).value, DecodeAmount(b).rest + more)
  {
    TakeMore(b, 1, more);
    TakeMore(b[1..], 8, more);
  }

  lemma AddressMore(a: Addresses, b: Bytes, more: Bytes)
    requires DecodeAddress(a, b).Good?
    ensures DecodeAddress(a, b + more) == Good(DecodeAddress(a, b).value, DecodeAddress(a, b).rest + more)
  {
    VarIntMore(b, more);
    TakeMore(DecodeVarInt(b).rest, DecodeVarInt(b).value, more);
  }

  /** What was decoded does not depend on the bytes behind it. */
  lemma PegoutMore(a: Addresses, b: Bytes, more: Bytes)
    requires DecodePegout(a, b).Good?
    ensures DecodePegout(a, b + more) == Good(DecodePegout(a, b).value, DecodePegout(a, b).rest + more)
  {
    AmountMore(b, more);
    var b1 := DecodeAmount(b).rest;
    AddressMore(a, b1, more);
    var b2 := DecodeAddress(a, b1).rest;
    TakeMore(b2, 1, more);
    TakeMore(b2[1..], 36, more);
  }

  /** No proper prefix of an encoding decodes to anything: a truncated peg-out is always refused. */
  lemma TruncationIsRefused(a: Addresses, p: PegoutWithId, n: nat)
    requires a.RoundTrips() && Encodable(a, p) && a.fits(p.destination, p.network) && n < |EncodePegout(a, p)|
    ensures DecodePegout(a, EncodePegout(a, p)[..n]).Bad?
  {
    PegoutRoundTrip(a, p, []);
    assert EncodePegout(a, p) + [] == EncodePegout(a, p);
    PrefixIsRefused(a, EncodePegout(a, p), n);
  }

  lemma PrefixIsRefused(a: Addresses, b: Bytes, n: nat)
    requires DecodePegout(a, b).Good? && DecodePegout(a, b).rest == [] && n < |b|
    ensures DecodePegout(a, b[..n]).Bad?
  {
    assert b[..n] + b[n..] == b;
    if DecodePegout(a, b[..n]).Good? {
      PegoutMore(a, b[..n], b[n..]);
    }
  }
}
