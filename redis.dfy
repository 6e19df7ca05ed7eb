/** The Redis connection (packages/db/src/redis.ts): the reconnect backoff
    and the module-level client that `getRedisClient` creates once and
    `closeRedisConnection` clears. The network is not modelled: connecting
    either succeeds or fails, as a parameter says. */
module Redis {
  import opened Strings

  const DefaultUrl := "redis://localhost:6379"
  const ConnectTimeout := 5000
  const MaxReconnectAttempts := 10
  const RetryStep := 100
  const MaxRetryDelay := 3000

  /** What `reconnectStrategy` tells the client: give up, or wait this many ms. */
  datatype Retry = GiveUp | Delay(ms: nat)

  function ReconnectStrategy(retries: nat): (r: Retry)
    ensures r.GiveUp? <==> retries > MaxReconnectAttempts
    ensures r.Delay? ==> r.ms <= MaxRetryDelay && r.ms <= retries * RetryStep
  {
    if retries > MaxReconnectAttempts then GiveUp
    else Delay(if retries * RetryStep <= MaxRetryDelay then retries * RetryStep else MaxRetryDelay)
  }

  /** The delay grows with the attempt number until the strategy gives up. */
  lemma ReconnectMonotone(a: nat, b: nat)
    requires a <= b <= MaxReconnectAttempts
    ensures ReconnectStrategy(a).Delay? && ReconnectStrategy(b).Delay?
    ensures ReconnectStrategy(a).ms <= ReconnectStrategy(b).ms
  {
  }

  /** Since the client gives up after ten attempts, the longest delay is
      1000 ms: the 3000 ms cap is never reached. */
  lemma ReconnectCapUnreached(retries: nat)
    ensures ReconnectStrategy(retries).Delay? ==>
      ReconnectStrategy(retries).ms == retries * RetryStep <= MaxReconnectAttempts * RetryStep < MaxRetryDelay
  {
  }

  /** `process.env.REDIS_URL || 'redis://localhost:6379'`. */
  function RedisUrl(redisUrlEnv: Option<string>): (url: string)
    ensures Truthy(redisUrlEnv) ==> url == redisUrlEnv.value
    ensures !Truthy(redisUrlEnv) ==> url == DefaultUrl
  {
    if Truthy(redisUrlEnv) then redisUrlEnv.value else DefaultUrl
  }

  /** One client object; `open` is whether it is connected and not quit. */
  class RedisClient {
    const url: string
    var open: bool

    constructor(url: string)
      ensures this.url == url && !open
    {
      this.url := url;
      open := false;
    }

    /** `client.connect()`; `succeeds` stands for the server's answer. */
    method Connect(succeeds: bool)
      modifies this
      ensures open == succeeds
    {
      open := succeeds;
    }

    /** `client.quit()`. */
    method Quit()
      modifies this
      ensures !open
    {
      open := false;
    }
  }

  /** The module-level `redisClient` variable. */
  class Connection {
    var client: RedisClient?

    constructor()
      ensures client == null
    {
      client := null;
    }

    /** `getRedisClient()`: with no client, create one for the configured URL,
        store it, then connect it; otherwise return the stored one untouched.
        A failed connect rejects the call (`None`) but leaves the new client
        stored, so the next call returns it unconnected. */
    method GetRedisClient(redisUrlEnv: Option<string>, connectSucceeds: bool) returns (r: Option<RedisClient>)
      modifies this
      ensures old(client) != null ==> client == old(client) && r == Some(client)
      ensures old(client) == null ==>
        && client != null && fresh(client)
        && client.url == RedisUrl(redisUrlEnv) && client.open == connectSucceeds
        && r == if connectSucceeds then Some(client) else None
    {
      if client == null {
        var c := new RedisClient(RedisUrl(redisUrlEnv));
        client := c;
        c.Connect(connectSucceeds);
        if !connectSucceeds {
          return None;
        }
      }
      r := Some(client);
    }

    /** `closeRedisConnection()`: quit and forget the client, if there is one. */
    method CloseRedisConnection()
      modifies this, client
      ensures client == null
      ensures old(client) != null ==> !old(client).open
    {
      if client != null {
        client.Quit();
        client := null;
      }
    }
  }

  /** Two calls in a row hand out the same client, and only the first creates
      it; after closing, the next call creates a new one. */
  method SingletonScenario(conn: Connection, redisUrlEnv: Option<string>)
    returns (first: RedisClient, second: RedisClient, third: RedisClient)
    requires conn.client == null
    modifies conn
    ensures first == second && first != third
    ensures first.url == RedisUrl(redisUrlEnv) && third.url == RedisUrl(redisUrlEnv)
  {
    var r1 := conn.GetRedisClient(redisUrlEnv, true);
    var r2 := conn.GetRedisClient(redisUrlEnv, true);
    first, second := r1.value, r2.value;
    conn.CloseRedisConnection();
    var r3 := conn.GetRedisClient(redisUrlEnv, true);
    third := r3.value;
  }

  /** After a failed first connect, later calls return the stored client
      without connecting it again. */
  method FailedConnectSticks(conn: Connection, redisUrlEnv: Option<string>)
    returns (first: Option<RedisClient>, second: Option<RedisClient>)
    requires conn.client == null
    modifies conn
    ensures first.None? && second.Some? && !second.value.open
  {
    first := conn.GetRedisClient(redisUrlEnv, false);
    second := conn.GetRedisClient(redisUrlEnv, true);
  }
}
