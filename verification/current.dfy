/** The realtime endpoint: the stored current reading, or a fixed placeholder
    record while the store holds nothing. */
module Current {
  import opened Json

  /** The placeholder shown before the device has written anything. */
  const Waiting: JsonValue := JObj([
    ("heartRate", JNum(0.0)), ("activity", JStr("Menunggu Data...")),
    ("anomaly", JStr("Normal")), ("magnitude", JNum(0.0)), ("hrStable", JBool(true)),
    ("isAnomalous", JBool(false)), ("temperature", JNum(0.0))])

  /** `get_current_data` with the store read as input: a truthy answer is
      returned untouched, anything falsy (`None`, `{}`, `0`, `""`) is replaced
      by the placeholder, so the answer is never falsy. */
  function CurrentData(data: JsonValue): (r: JsonValue)
    ensures Truthy(r)
    ensures Truthy(data) ==> r == data
    ensures !Truthy(data) ==> r == Waiting
  {
    if !Truthy(data) then Waiting else data
  }

  /** Feeding the answer back in changes nothing. */
  lemma CurrentIdempotent(data: JsonValue)
    ensures CurrentData(CurrentData(data)) == CurrentData(data)
  {
  }
}
