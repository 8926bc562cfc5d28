/** The two Redis hashes the consumer and the backup share. A hash without fields does not exist. */
module Store {
  import opened Bytes

  datatype Marker = MtimeChange | Renamed | Retry

  type Hash = map<Path, Marker>

  class Redis {
    var pending: Hash
    var processing: Hash

    constructor (pending: Hash, processing: Hash)
      ensures this.pending == pending && this.processing == processing
    {
      this.pending := pending;
      this.processing := processing;
    }
  }
}
