/** `ConnectionLimiter` and the handlers that drive it together with the subscription service. */
module Controllers {
  import opened Prelude
  import opened Tables
  import opened Unsubscribing
  import Machine
  import Services

  class WebSocket {
    const id: ConnId
    const ip: string
    var subscriptions: int
    var ipCounted: bool
    var closeSent: bool

    constructor (id: ConnId, ip: string)
      ensures this.id == id && this.ip == ip && !ipCounted && !closeSent
    {
      this.id, this.ip, subscriptions, ipCounted, closeSent := id, ip, 0, false, false;
    }
  }

  class ConnectionLimiter {
    var clientIps: map<string, int>

    constructor ()
      ensures clientIps == map[]
    {
      clientIps := map[];
    }

    method IncrementCounters(ws: WebSocket)
      modifies this, ws
      ensures clientIps == Machine.OpenIp(old(clientIps), ws.ip)
      ensures ws.ipCounted && ws.subscriptions == 0 && ws.closeSent == old(ws.closeSent)
    {
      if ws.ip !in clientIps || clientIps[ws.ip] == 0 {
        clientIps := clientIps[ws.ip := 1];
      } else {
        clientIps := clientIps[ws.ip := clientIps[ws.ip] + 1];
      }
      ws.ipCounted := true;
      ws.subscriptions := 0;
    }

    /** A counted socket's address is always in the table; `Connections.PerIpAccounting` keeps it there. */
    method DecrementCounters(ws: WebSocket)
      requires ws.ipCounted ==> ws.ip in clientIps
      modifies this
      ensures clientIps == if ws.ipCounted then Machine.CloseIp(old(clientIps), ws.ip) else old(clientIps)
    {
      if ws.ipCounted {
        clientIps := clientIps[ws.ip := clientIps[ws.ip] - 1];
        if clientIps[ws.ip] == 0 {
          clientIps := clientIps - {ws.ip};
        }
      }
    }

    /** The total of open sockets is read from the server, so it is an argument here. */
    method ApplyLimits(ws: WebSocket, connectedClients: int, maxConnections: int, maxPerIp: int)
      modifies ws
      ensures ws.closeSent <==> (
        || old(ws.closeSent)
        || connectedClients > maxConnections
        || (ws.ip in clientIps && clientIps[ws.ip] != 0 && clientIps[ws.ip] > maxPerIp))
      ensures ws.subscriptions == old(ws.subscriptions) && ws.ipCounted == old(ws.ipCounted)
    {
      if connectedClients > maxConnections {
        ws.closeSent := true;
        return;
      }
      if ws.ip in clientIps && clientIps[ws.ip] != 0 && clientIps[ws.ip] > maxPerIp {
        ws.closeSent := true;
        return;
      }
    }

    method IncrementSubs(ws: WebSocket)
      modifies ws
      ensures ws.subscriptions == old(ws.subscriptions) + 1
      ensures ws.ipCounted == old(ws.ipCounted) && ws.closeSent == old(ws.closeSent)
    {
      ws.subscriptions := ws.subscriptions + 1;
    }

    method DecrementSubs(ws: WebSocket, amount: nat)
      modifies ws
      ensures ws.subscriptions == old(ws.subscriptions) - amount
      ensures ws.ipCounted == old(ws.ipCounted) && ws.closeSent == old(ws.closeSent)
    {
      ws.subscriptions := ws.subscriptions - amount;
    }

    predicate ValidateSubscriptionLimit(ws: WebSocket, limit: int)
      reads ws
    {
      ws.subscriptions < limit
    }
  }

  /** `handleEthUnsubscribe`: `None` is the subscriptions-disabled error. */
  method HandleEthUnsubscribe(enabled: bool, svc: Services.SubscriptionService, limiter: ConnectionLimiter,
                              ws: WebSocket, subId: Option<SubId>) returns (response: Option<bool>)
    modifies svc, svc.pollerService, ws
    ensures !enabled ==> response == None && svc.View() == old(svc.View()) && ws.subscriptions == old(ws.subscriptions)
    ensures enabled ==>
      && svc.View() == Unsubscribe(old(svc.View()), ws.id, subId)
      && ws.subscriptions == old(ws.subscriptions) - TotalMatches(old(svc.subscriptions), ws.id, subId)
      && response == Some(TotalMatches(old(svc.subscriptions), ws.id, subId) != 0)
    ensures enabled && subId.Some? && subId.value != "" ==>
      response == Some((exists t, u :: t in old(svc.subscriptions) && u in old(svc.subscriptions)[t]
                          && u.conn == ws.id && u.id == subId.value))
    ensures enabled && (subId == None || subId == Some("")) ==>
      response == Some(exists t, u :: t in old(svc.subscriptions) && u in old(svc.subscriptions)[t] && u.conn == ws.id)
  {
    if !enabled {
      return None;
    }
    if subId.Some? && subId.value != "" {
      CountsOne(svc.subscriptions, ws.id, subId.value);
    } else {
      CountsAll(svc.subscriptions, ws.id, subId);
    }
    var unsubbedCount := svc.Unsubscribe(ws.id, subId);
    limiter.DecrementSubs(ws, unsubbedCount);
    response := Some(unsubbedCount != 0);
  }

  /** What `eth_subscribe` answers: an id, or one of its errors. */
  datatype SubscribeReply = LimitExceeded | Disabled | Unsupported | InvalidFilters | Subscribed(id: SubId)

  /**
   The `eth_subscribe` path from the limit check to the counter, when no other request comes in between;
   `filtersValid` is the verdict of the filter validation.
   */
  method HandleEthSubscribe(limit: int, enabled: bool, newHeadsEnabled: bool, sameSub: bool, filtersValid: bool,
                            svc: Services.SubscriptionService, limiter: ConnectionLimiter,
                            ws: WebSocket, event: string, filters: Filters, freshId: SubId) returns (reply: SubscribeReply)
    modifies svc, svc.pollerService, ws
    ensures reply == LimitExceeded <==> old(ws.subscriptions) >= limit
    ensures reply == Disabled <==> old(ws.subscriptions) < limit && !enabled
    ensures reply == InvalidFilters <==> old(ws.subscriptions) < limit && enabled && event == "logs" && !filtersValid
    ensures reply == Unsupported <==>
      && old(ws.subscriptions) < limit && enabled && event != "logs" && !(event == "newHeads" && newHeadsEnabled)
    ensures !reply.Subscribed? ==> svc.View() == old(svc.View()) && ws.subscriptions == old(ws.subscriptions)
    ensures reply.Subscribed? ==>
      && svc.View() == Subscribe(old(svc.View()), sameSub, Subscriber(ws.id, freshId), Tag(event, filters))
      && Subscriber(ws.id, reply.id) in SubsOf(svc.subscriptions, Tag(event, filters))
      && ws.subscriptions == old(ws.subscriptions) + 1 <= limit
  {
    if !limiter.ValidateSubscriptionLimit(ws, limit) {
      return LimitExceeded;
    }
    if !enabled {
      return Disabled;
    }
    if event == LOGS {
      if !filtersValid {
        return InvalidFilters;
      }
    } else if event != NEW_HEADS || !newHeadsEnabled {
      return Unsupported;
    }
    var id := svc.Subscribe(sameSub, ws.id, event, filters, freshId);
    limiter.IncrementSubs(ws);
    reply := Subscribed(id);
  }

  /** `handleConnectionClose`: nothing of the connection stays in the tables. */
  method HandleConnectionClose(svc: Services.SubscriptionService, limiter: ConnectionLimiter, ws: WebSocket)
    requires ws.ipCounted ==> ws.ip in limiter.clientIps
    modifies svc, svc.pollerService, limiter
    ensures svc.View() == Unsubscribe(old(svc.View()), ws.id, None)
    ensures limiter.clientIps ==
      if ws.ipCounted then Machine.CloseIp(old(limiter.clientIps), ws.ip) else old(limiter.clientIps)
    ensures forall t, u :: t in svc.subscriptions && u in svc.subscriptions[t] ==> u.conn != ws.id
  {
    ghost var before := svc.subscriptions;
    var _ := svc.Unsubscribe(ws.id, None);
    limiter.DecrementCounters(ws);
    forall t, u | t in svc.subscriptions && u in svc.subscriptions[t] ensures u.conn != ws.id {
      KeepMembers(before[t], ws.id, None);
    }
  }
}
