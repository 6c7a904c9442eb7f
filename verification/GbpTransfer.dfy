/** Values sent from one encoder object to one decoder object, one message after the other. */
module GbpTransfer {
  import opened Wrappers
  import opened Varint
  import opened GbpTypes
  import opened GbpEncoding
  import opened GbpDecoding
  import opened GbpRoundTrip
  import opened GbpEncoderClass
  import opened GbpDecoderClass

  /** One message, whose lengths and counters fit 32 bits. */
  method TransferOne(encoder: GbpEncoder, decoder: GbpDecoder, v: Json) returns (r: Result<Json, DecodeError>)
    requires WellFormed(v) && Encode(encoder.p, v).1
    modifies encoder, decoder
    ensures r == Ok(v) <==> Faithful(encoder.p, v)
    ensures NoEmptyArray(v) ==> r.Ok?
  {
    hide *;
    var bytes := encoder.Encode(v);
    r := decoder.Decode(bytes);
    RoundTripIff(encoder.p, v);
    if NoEmptyArray(v) {
      DecodeNeverFails(encoder.p, v);
    }
  }

  /**
   Whatever the two objects were used for before, each value arrives unchanged exactly when it
   is faithful on its own, and without empty arrays no message is refused.
   */
  method Transfer(encoder: GbpEncoder, decoder: GbpDecoder, values: seq<Json>)
    returns (received: seq<Result<Json, DecodeError>>)
    requires forall v <- values :: WellFormed(v) && Encode(encoder.p, v).1
    modifies encoder, decoder
    ensures |received| == |values|
    ensures forall i :: 0 <= i < |values| ==> (received[i] == Ok(values[i]) <==> Faithful(encoder.p, values[i]))
    ensures forall i :: 0 <= i < |values| && NoEmptyArray(values[i]) ==> received[i].Ok?
  {
    hide *;
    received := [];
    for i := 0 to |values|
      invariant |received| == i
      invariant forall j :: 0 <= j < i ==> (received[j] == Ok(values[j]) <==> Faithful(encoder.p, values[j]))
      invariant forall j :: 0 <= j < i && NoEmptyArray(values[j]) ==> received[j].Ok?
    {
      var r := TransferOne(encoder, decoder, values[i]);
      received := received + [r];
    }
  }
}
