/**
 * The keyed handle containers: maps from a native handle to the state kept for it, with
 * an `add` that refuses a handle already present and an `erase` that hands back the entry
 * it removes. Keys are shared pointers hashed and compared by their raw pointer, so a
 * handle is modelled by that raw address.
 */
module KeyedContainers {
  import opened Wrappers
  import opened QuicErrors
  import opened QuicBase

  /** A native handle, as the raw address the maps hash and compare. */
  type Handle = nat

  /**
   * `find`, then `emplace` when the key is absent: the map grows by exactly the new entry
   * and the stored value is returned; a key already present is refused with `duplicate`
   * and the map is left as it was.
   */
  function Added<V>(m: map<Handle, V>, k: Handle, v: V, duplicate: QuicErrorCode): (r: (map<Handle, V>, Result<V, QuicErrorCode>))
    ensures r.1.Success? <==> k !in m
    ensures r.1.Failure? ==> r.1.error == duplicate && r.0 == m
    ensures r.1.Success? ==> r.1.value == v && r.0.Keys == m.Keys + {k} && r.0[k] == v && |r.0| == |m| + 1
    ensures forall j :: j in m ==> j in r.0 && r.0[j] == m[j]
  {
    if k in m then (m, Failure(duplicate)) else (m[k := v], Success(v))
  }

  /**
   * `find`, then `extract` when the key is present: exactly that entry leaves the map and is
   * returned, every other entry stays; an absent key is reported with `absent`.
   */
  function Extracted<V>(m: map<Handle, V>, k: Handle, absent: QuicErrorCode): (r: (map<Handle, V>, Result<(Handle, V), QuicErrorCode>))
    ensures r.1.Success? <==> k in m
    ensures r.1.Failure? ==> r.1.error == absent && r.0 == m
    ensures r.1.Success? ==> r.1.value == (k, m[k]) && r.0.Keys == m.Keys - {k} && |r.0| == |m| - 1
    ensures forall j :: j in r.0 ==> j in m && r.0[j] == m[j]
  {
    if k in m then (m - {k}, Success((k, m[k]))) else (m, Failure(absent))
  }

  /** Erasing a handle right after adding it gives back the entry and the map as it was. */
  lemma ExtractAfterAdd<V>(m: map<Handle, V>, k: Handle, v: V, duplicate: QuicErrorCode, absent: QuicErrorCode)
    requires k !in m
    ensures Extracted(Added(m, k, v, duplicate).0, k, absent) == (m, Success((k, v)))
  {
    assert m[k := v] - {k} == m;
  }

  /** Adding back an entry that was just erased restores the map. */
  lemma AddAfterExtract<V>(m: map<Handle, V>, k: Handle, duplicate: QuicErrorCode, absent: QuicErrorCode)
    requires k in m
    ensures Added(Extracted(m, k, absent).0, k, m[k], duplicate) == (m, Success(m[k]))
  {
    assert (m - {k})[k := m[k]] == m;
  }

  /**
   * `handle_context_container<V>`, and `value_container<V>`, whose `add` and `erase` are the
   * same code: the per-handle contexts of one owner.
   */
  class HandleContextContainer<V> {
    var storage: map<Handle, V>

    constructor()
      ensures storage == map[]
    {
      storage := map[];
    }

    /** `add`: stores `context` under a new handle; a handle already present is refused. */
    method Add(handle: Handle, context: V) returns (r: Result<V, QuicErrorCode>)
      modifies this
      ensures (storage, r) == Added(old(storage), handle, context, ValueAlreadyExists)
    {
      if handle in storage {
        r := Failure(ValueAlreadyExists);
      } else {
        storage := storage[handle := context];
        r := Success(context);
      }
    }

    /** `erase`: removes and returns the entry of `handle`; an absent handle is reported. */
    method Erase(handle: Handle) returns (r: Result<(Handle, V), QuicErrorCode>)
      modifies this
      ensures (storage, r) == Extracted(old(storage), handle, ValueDoesNotExists)
    {
      if handle !in storage {
        r := Failure(ValueDoesNotExists);
      } else {
        r := Success((handle, storage[handle]));
        storage := storage - {handle};
      }
    }
  }

  /** A second `add` of the same handle is refused, and `erase` of a handle never added fails. */
  method DuplicateAndMissingHandles(handle: Handle, other: Handle, first: int, second: int)
    returns (added: Result<int, QuicErrorCode>, again: Result<int, QuicErrorCode>,
             missing: Result<(Handle, int), QuicErrorCode>, erased: Result<(Handle, int), QuicErrorCode>)
    requires handle != other
    ensures added == Success(first) && again == Failure(ValueAlreadyExists)
    ensures missing == Failure(ValueDoesNotExists) && erased == Success((handle, first))
  {
    var c := new HandleContextContainer<int>();
    added := c.Add(handle, first);
    again := c.Add(handle, second);
    missing := c.Erase(other);
    erased := c.Erase(handle);
  }

  /** `stream`: the stream's handle, the connection that owns it and its callbacks. */
  datatype Stream = Stream(handle: Handle, connection: Handle, callbacks: StreamCallbacks)

  /** `stream_container<Derived>`: the streams of one connection, `owner`. */
  class StreamContainer {
    const owner: Handle
    var streams: map<Handle, Stream>

    /** Every stream is stored under its own handle and belongs to the owner. */
    predicate Valid()
      reads this
    {
      forall h :: h in streams ==> streams[h].handle == h && streams[h].connection == owner
    }

    constructor(owner: Handle)
      ensures Valid() && this.owner == owner && streams == map[]
    {
      this.owner := owner;
      streams := map[];
    }

    /**
     * `add_new_stream`: a new handle gets a stream carrying that handle, the owning
     * connection and `callbacks`; a handle already present is refused.
     */
    method AddNewStream(handle: Handle, callbacks: StreamCallbacks) returns (r: Result<Stream, QuicErrorCode>)
      requires Valid()
      modifies this
      ensures Valid()
      ensures (streams, r) == Added(old(streams), handle, Stream(handle, owner, callbacks), StreamAlreadyExists)
    {
      if handle in streams {
        r := Failure(StreamAlreadyExists);
      } else {
        var stream := Stream(handle, owner, callbacks);
        streams := streams[handle := stream];
        r := Success(stream);
      }
    }

    /** `remove_stream`: removes and returns the entry of `handle`; an absent handle is reported. */
    method RemoveStream(handle: Handle) returns (r: Result<(Handle, Stream), QuicErrorCode>)
      requires Valid()
      modifies this
      ensures Valid()
      ensures (streams, r) == Extracted(old(streams), handle, StreamDoesNotExist)
    {
      if handle !in streams {
        r := Failure(StreamDoesNotExist);
      } else {
        r := Success((handle, streams[handle]));
        streams := streams - {handle};
      }
    }
  }

  /** The outcome of an extraction as an optional entry: `nullopt` when the key was absent. */
  function AsOption<T>(r: Result<T, QuicErrorCode>): (o: Option<T>)
    ensures o.Some? <==> r.Success?
    ensures o.Some? ==> o.value == r.value
  {
    if r.Success? then Some(r.value) else None
  }

  /**
   * The `connection` of quic_connection_context.hpp with its older `stream_container`:
   * the same `add_new_stream`, and a `remove_stream` that answers `nullopt` for an absent
   * handle instead of an error code.
   */
  class ConnectionContext {
    const handle: Handle
    var streams: map<Handle, Stream>

    /** Every stream is stored under its own handle and belongs to this connection. */
    predicate Valid()
      reads this
    {
      forall h :: h in streams ==> streams[h].handle == h && streams[h].connection == handle
    }

    constructor(handle: Handle)
      ensures Valid() && this.handle == handle && streams == map[]
    {
      this.handle := handle;
      streams := map[];
    }

    /** `add_new_stream`: as in the newer container. */
    method AddNewStream(streamHandle: Handle, callbacks: StreamCallbacks) returns (r: Result<Stream, QuicErrorCode>)
      requires Valid()
      modifies this
      ensures Valid()
      ensures (streams, r) == Added(old(streams), streamHandle, Stream(streamHandle, handle, callbacks), StreamAlreadyExists)
    {
      if streamHandle in streams {
        r := Failure(StreamAlreadyExists);
      } else {
        var stream := Stream(streamHandle, handle, callbacks);
        streams := streams[streamHandle := stream];
        r := Success(stream);
      }
    }

    /** `remove_stream`: removes and returns the entry of `streamHandle`, or nothing. */
    method RemoveStream(streamHandle: Handle) returns (r: Option<(Handle, Stream)>)
      requires Valid()
      modifies this
      ensures Valid()
      ensures var e := Extracted(old(streams), streamHandle, StreamDoesNotExist);
              streams == e.0 && r == AsOption(e.1)
    {
      if streamHandle !in streams {
        r := None;
      } else {
        r := Some((streamHandle, streams[streamHandle]));
        streams := streams - {streamHandle};
      }
    }
  }

  /** `connection`, as the server stores it: the connection's handle. */
  datatype Connection = Connection(handle: Handle)

  /** The connection map of `msquic_server`, accessed one operation at a time. */
  class ServerConnections {
    var connections: map<Handle, Connection>

    /** Every connection is stored under its own handle. */
    predicate Valid()
      reads this
    {
      forall h :: h in connections ==> connections[h].handle == h
    }

    constructor()
      ensures Valid() && connections == map[]
    {
      connections := map[];
    }

    /** `add_new_connection`: a new handle gets `connection{handle}`; a known one is refused. */
    method AddNewConnection(handle: Handle) returns (r: Result<Connection, QuicErrorCode>)
      requires Valid()
      modifies this
      ensures Valid()
      ensures (connections, r) == Added(old(connections), handle, Connection(handle), ConnectionAlreadyExists)
    {
      if handle in connections {
        r := Failure(ConnectionAlreadyExists);
      } else {
        connections := connections[handle := Connection(handle)];
        r := Success(Connection(handle));
      }
    }

    /** `remove_connection`: removes and returns the entry of `handle`; an absent one is reported. */
    method RemoveConnection(handle: Handle) returns (r: Result<(Handle, Connection), QuicErrorCode>)
      requires Valid()
      modifies this
      ensures Valid()
      ensures (connections, r) == Extracted(old(connections), handle, ConnectionDoesNotExists)
    {
      if handle !in connections {
        r := Failure(ConnectionDoesNotExists);
      } else {
        r := Success((handle, connections[handle]));
        connections := connections - {handle};
      }
    }
  }
}
