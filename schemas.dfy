/**
 * The positional decoder for one raw candle ("kline") record as the exchange
 * sends it: `[open_time_ms, open, high, low, close, volume, close_time_ms, ...]`.
 */
module Schemas {
  import opened Wrappers

  /** One element of a raw record: a value that converts to a number, or one that does not. */
  datatype RawValue = Num(value: real) | NotNumeric

  /** A decoded candle. Times are seconds since the epoch. */
  datatype KlineData = KlineData(
    openTime: real,
    open: real,
    high: real,
    low: real,
    close: real,
    volume: real,
    closeTime: real)

  /** Number of leading positions the decoder reads; anything after them is ignored. */
  const FieldCount: nat := 7

  /** A millisecond timestamp as seconds. */
  function MillisToSeconds(ms: real): (s: real)
    ensures s * 1000.0 == ms
  {
    ms / 1000.0
  }

  /** The record has every position the decoder reads, and each of them is numeric. */
  predicate Decodable(data: seq<RawValue>) {
    |data| >= FieldCount && forall i :: 0 <= i < FieldCount ==> data[i].Num?
  }

  /** The raw record a decoded candle comes from (times back in milliseconds). */
  function ToList(k: KlineData): (data: seq<RawValue>)
    ensures |data| == FieldCount && Decodable(data)
  {
    [Num(k.openTime * 1000.0), Num(k.open), Num(k.high), Num(k.low),
     Num(k.close), Num(k.volume), Num(k.closeTime * 1000.0)]
  }

  /**
   * Decode one raw record. It fails when the record is shorter than seven
   * elements or any of the first seven is not numeric; otherwise the
   * decoded candle re-encodes to exactly those seven elements.
   */
  function FromList(data: seq<RawValue>): (r: Option<KlineData>)
    ensures r.Some? <==> Decodable(data)
    ensures r.Some? ==> ToList(r.value) == data[..FieldCount]
  {
    if !Decodable(data) then None
    else
      var k := KlineData(
        MillisToSeconds(data[0].value),
        data[1].value, data[2].value, data[3].value, data[4].value, data[5].value,
        MillisToSeconds(data[6].value));
      assert ToList(k) == data[..FieldCount];
      Some(k)
  }

  /** Encoding a candle, with any trailing elements, and decoding it gives the candle back. */
  lemma DecodeEncoded(k: KlineData, tail: seq<RawValue>)
    ensures FromList(ToList(k) + tail) == Some(k)
  {
  }

  /** Elements after the seventh never affect the outcome of decoding. */
  lemma DecodeIgnoresTail(data: seq<RawValue>, tail: seq<RawValue>)
    requires |data| >= FieldCount
    ensures FromList(data + tail) == FromList(data)
  {
  }
}
