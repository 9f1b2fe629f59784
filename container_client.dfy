/**
 * The client map of the container (container/client.go): service id to client, over a
 * `sync.Map`. A client is seen through its `Service` view: id, name and metadata.
 */
module ContainerClient {
  import opened Wrappers
  import opened Cim

  /** The filter of `Services`: no arguments keeps everything, (k, v) keeps metadata[k] == v. */
  predicate Matches(s: Service, kvs: seq<string>)
    requires |kvs| == 0 || |kvs| == 2
  {
    |kvs| == 0 || s.MetaValue(kvs[0]) == kvs[1]
  }

  class ClientsImpl {
    var clients: map<string, Service>

    /** Every client is stored under its own service id. */
    ghost predicate Valid()
      reads this
    {
      forall id :: id in clients ==> clients[id].id == id
    }

    constructor ()
      ensures Valid() && clients == map[]
    {
      clients := map[];
    }

    /** Stores the client under its id, replacing any earlier one; an empty id is only logged. */
    method Add(client: Service)
      requires Valid()
      modifies this
      ensures Valid() && clients == old(clients)[client.id := client]
    {
      clients := clients[client.id := client];
    }

    method Remove(id: string)
      requires Valid()
      modifies this
      ensures Valid() && clients == old(clients) - {id}
    {
      clients := clients - {id};
    }

    function Get(id: string): (r: Option<Service>)
      reads this
      ensures r.Some? <==> id in clients
      ensures r.Some? ==> r.value == clients[id]
    {
      if id in clients then Some(clients[id]) else None
    }

    /**
     * `Services(kvs...)`: nil unless given no argument or one key/value pair; otherwise
     * every stored client that passes the filter, each once, in the unspecified order in
     * which `Range` visits the map.
     */
    method Services(kvs: seq<string>) returns (r: Option<seq<Service>>)
      requires Valid()
      ensures r.None? <==> |kvs| != 0 && |kvs| != 2
      ensures r.Some? ==> forall j :: 0 <= j < |r.value| ==>
        r.value[j].id in clients && clients[r.value[j].id] == r.value[j] && Matches(r.value[j], kvs)
      ensures r.Some? ==> forall id :: id in clients && Matches(clients[id], kvs) ==> clients[id] in r.value
      ensures r.Some? ==> forall i, j :: 0 <= i < j < |r.value| ==> r.value[i].id != r.value[j].id
    {
      if |kvs| != 0 && |kvs| != 2 {
        return None;
      }
      var arr: seq<Service> := [];
      var remaining := clients.Keys;
      while remaining != {}
        invariant remaining <= clients.Keys
        invariant forall j :: 0 <= j < |arr| ==>
          arr[j].id in clients && arr[j].id !in remaining && clients[arr[j].id] == arr[j] && Matches(arr[j], kvs)
        invariant forall id :: id in clients && id !in remaining && Matches(clients[id], kvs) ==> clients[id] in arr
        invariant forall i, j :: 0 <= i < j < |arr| ==> arr[i].id != arr[j].id
        decreases remaining
      {
        var key :| key in remaining;
        remaining := remaining - {key};
        var service := clients[key];
        if Matches(service, kvs) {
          arr := arr + [service];
        }
      }
      r := Some(arr);
    }
  }
}
