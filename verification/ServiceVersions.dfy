/** A service entry seen as a versioned key: what it shares with an entry of the key-value store. */
module ServiceVersions {
  import opened ServiceModel
  import Kv

  function Version(e: ServiceEntry): Kv.KVEntry {
    Kv.KVEntry("", e.modifyIndex, e.createIndex, 0)
  }

  function Versions(data: map<string, ServiceEntry>): map<string, Kv.KVEntry> {
    map n | n in data :: Version(data[n])
  }
}
