/** Command names: the enumeration of parser.h, cmd_to_string, findRedisCmd and isWriteCmd. */
module Commands {
  import opened CStrings

  datatype Cmd =
    | UNKNOWN
    | ECHO | PING | INFO | REPLCONF | WAIT | PSYNC | SELECT | COMMAND
    | CONFIG_GET | KEYS
    | SET | GET | DEL | EXISTS | EXPIRE | TTL | TYPE
    | INCR | DECR | APPEND | STRLEN | MGET
    | MULTI | EXEC | DISCARD | WATCH | UNWATCH
    | LPUSH | RPUSH | LPOP | RPOP | LLEN | LRANGE | BLPOP
    | HSET | HGET | HGETALL | HDEL
    | SADD | SREM | SMEMBERS | SISMEMBER
    | ZADD | ZRANK | ZRANGE | ZCARD | ZSCORE | ZREM | GEOADD | GEOPOS | GEODIST | GEOSEARCH
    | AUTH | ACL
    | XADD | XREAD | XRANGE | XGROUP
    | SUBSCRIBE | PUBLISH | UNSUBSCRIBE

  /** cmd_to_string */
  function CmdToString(cmd: Cmd): string {
    match cmd
    case ECHO => "ECHO"
    case PING => "PING"
    case INFO => "INFO"
    case REPLCONF => "REPLCONF"
    case WAIT => "WAIT"
    case PSYNC => "PSYNC"
    case AUTH => "AUTH"
    case SELECT => "SELECT"
    case COMMAND => "COMMAND"
    case SET => "SET"
    case GET => "GET"
    case DEL => "DEL"
    case EXISTS => "EXISTS"
    case EXPIRE => "EXPIRE"
    case TTL => "TTL"
    case TYPE => "TYPE"
    case INCR => "INCR"
    case DECR => "DECR"
    case APPEND => "APPEND"
    case STRLEN => "STRLEN"
    case MGET => "MGET"
    case MULTI => "MULTI"
    case EXEC => "EXEC"
    case DISCARD => "DISCARD"
    case WATCH => "WATCH"
    case LPUSH => "LPUSH"
    case RPUSH => "RPUSH"
    case LPOP => "LPOP"
    case RPOP => "RPOP"
    case LLEN => "LLEN"
    case LRANGE => "LRANGE"
    case HSET => "HSET"
    case HGET => "HGET"
    case HGETALL => "HGETALL"
    case HDEL => "HDEL"
    case SADD => "SADD"
    case SREM => "SREM"
    case SMEMBERS => "SMEMBERS"
    case SISMEMBER => "SISMEMBER"
    case XADD => "XADD"
    case XREAD => "XREAD"
    case XRANGE => "XRANGE"
    case XGROUP => "XGROUP"
    case SUBSCRIBE => "SUBSCRIBE"
    case _ => "UNKNOWN"
  }

  // The string comparisons of findRedisCmd, grouped by length and first letter: the names are
  // distinct, so their order does not matter.

  function ThreeLetters(name: string): (cmd: Cmd)
    ensures cmd.ACL? || cmd.SET? || cmd.GET? || cmd.DEL? || cmd.TTL? || cmd.UNKNOWN?
  {
    if name == "ACL" then ACL
    else if name == "SET" then SET
    else if name == "GET" then GET
    else if name == "DEL" then DEL
    else if name == "TTL" then TTL
    else UNKNOWN
  }

  function FourAToI(name: string): (cmd: Cmd)
    ensures cmd.ECHO? || cmd.INFO? || cmd.AUTH? || cmd.INCR? || cmd.DECR? || cmd.EXEC? || cmd.HSET? || cmd.HGET?
      || cmd.HDEL? || cmd.UNKNOWN?
  {
    if name == "ECHO" then ECHO
    else if name == "INFO" then INFO
    else if name == "AUTH" then AUTH
    else if name == "INCR" then INCR
    else if name == "DECR" then DECR
    else if name == "EXEC" then EXEC
    else if name == "HSET" then HSET
    else if name == "HGET" then HGET
    else if name == "HDEL" then HDEL
    else UNKNOWN
  }

  function FourKToR(name: string): (cmd: Cmd)
    ensures cmd.PING? || cmd.KEYS? || cmd.MGET? || cmd.LPOP? || cmd.RPOP? || cmd.LLEN? || cmd.UNKNOWN?
  {
    if name == "PING" then PING
    else if name == "KEYS" then KEYS
    else if name == "MGET" then MGET
    else if name == "LPOP" then LPOP
    else if name == "RPOP" then RPOP
    else if name == "LLEN" then LLEN
    else UNKNOWN
  }

  function FourSToZ(name: string): (cmd: Cmd)
    ensures cmd.WAIT? || cmd.TYPE? || cmd.SADD? || cmd.SREM? || cmd.XADD? || cmd.ZADD? || cmd.ZREM? || cmd.UNKNOWN?
  {
    if name == "WAIT" then WAIT
    else if name == "TYPE" then TYPE
    else if name == "SADD" then SADD
    else if name == "SREM" then SREM
    else if name == "XADD" then XADD
    else if name == "ZADD" then ZADD
    else if name == "ZREM" then ZREM
    else UNKNOWN
  }

  function FiveLetters(name: string): (cmd: Cmd)
    ensures cmd.PSYNC? || cmd.MULTI? || cmd.WATCH? || cmd.LPUSH? || cmd.RPUSH? || cmd.BLPOP? || cmd.XREAD?
      || cmd.ZRANK? || cmd.ZCARD? || cmd.UNKNOWN?
  {
    if name == "PSYNC" then PSYNC
    else if name == "MULTI" then MULTI
    else if name == "WATCH" then WATCH
    else if name == "LPUSH" then LPUSH
    else if name == "RPUSH" then RPUSH
    else if name == "BLPOP" then BLPOP
    else if name == "XREAD" then XREAD
    else if name == "ZRANK" then ZRANK
    else if name == "ZCARD" then ZCARD
    else UNKNOWN
  }

  function SixAToL(name: string): (cmd: Cmd)
    ensures cmd.EXISTS? || cmd.EXPIRE? || cmd.APPEND? || cmd.LRANGE? || cmd.GEOADD? || cmd.GEOPOS? || cmd.UNKNOWN?
  {
    if name == "EXISTS" then EXISTS
    else if name == "EXPIRE" then EXPIRE
    else if name == "APPEND" then APPEND
    else if name == "LRANGE" then LRANGE
    else if name == "GEOADD" then GEOADD
    else if name == "GEOPOS" then GEOPOS
    else UNKNOWN
  }

  function SixMToZ(name: string): (cmd: Cmd)
    ensures cmd.SELECT? || cmd.STRLEN? || cmd.XRANGE? || cmd.XGROUP? || cmd.ZRANGE? || cmd.ZSCORE? || cmd.UNKNOWN?
  {
    if name == "SELECT" then SELECT
    else if name == "STRLEN" then STRLEN
    else if name == "XRANGE" then XRANGE
    else if name == "XGROUP" then XGROUP
    else if name == "ZRANGE" then ZRANGE
    else if name == "ZSCORE" then ZSCORE
    else UNKNOWN
  }

  function SevenLetters(name: string): (cmd: Cmd)
    ensures cmd.COMMAND? || cmd.DISCARD? || cmd.UNWATCH? || cmd.HGETALL? || cmd.GEODIST? || cmd.PUBLISH?
      || cmd.UNKNOWN?
  {
    if name == "COMMAND" then COMMAND
    else if name == "DISCARD" then DISCARD
    else if name == "UNWATCH" then UNWATCH
    else if name == "HGETALL" then HGETALL
    else if name == "GEODIST" then GEODIST
    else if name == "PUBLISH" then PUBLISH
    else UNKNOWN
  }

  function LongerLetters(name: string): (cmd: Cmd)
    ensures cmd.REPLCONF? || cmd.SMEMBERS? || cmd.SISMEMBER? || cmd.GEOSEARCH? || cmd.SUBSCRIBE? || cmd.UNSUBSCRIBE?
      || cmd.UNKNOWN?
  {
    if name == "REPLCONF" then REPLCONF
    else if name == "SMEMBERS" then SMEMBERS
    else if name == "SISMEMBER" then SISMEMBER
    else if name == "GEOSEARCH" then GEOSEARCH
    else if name == "SUBSCRIBE" then SUBSCRIBE
    else if name == "UNSUBSCRIBE" then UNSUBSCRIBE
    else UNKNOWN
  }

  function Named(name: string): Cmd {
    if |name| == 3 then ThreeLetters(name)
    else if |name| == 4 then
      if name[0] <= 'I' then FourAToI(name) else if name[0] <= 'R' then FourKToR(name) else FourSToZ(name)
    else if |name| == 5 then FiveLetters(name)
    else if |name| == 6 then if name[0] <= 'L' then SixAToL(name) else SixMToZ(name)
    else if |name| == 7 then SevenLetters(name)
    else LongerLetters(name)
  }

  /** findRedisCmd */
  function FindRedisCmd(name: string): Cmd { Named(Upper(name)) }

  /** isWriteCmd */
  predicate IsWriteCmd(cmd: Cmd) {
    match cmd
    case SET | DEL | APPEND | EXPIRE | INCR | DECR => true
    case XADD | SADD | SREM | HSET | HDEL => true
    case LPUSH | RPUSH | LPOP | RPOP => true
    case _ => false
  }

  /** The commands after which the dispatch calls write_to_file. */
  predicate Logged(cmd: Cmd) {
    match cmd
    case SET | DEL | INCR | DECR | APPEND => true
    case LPUSH | RPUSH | LPOP | RPOP => true
    case HSET | HDEL => true
    case ZADD | ZREM | GEOADD => true
    case XADD => true
    case _ => false
  }

  /** The commands that are written to the append-only file or sent over the replication link. */
  predicate Recorded(cmd: Cmd) {
    IsWriteCmd(cmd) || cmd.REPLCONF? || cmd.ZADD? || cmd.ZREM? || cmd.GEOADD?
  }

  /** A name that the parser reads back as it stands. */
  predicate PlainName(s: string) {
    |s| <= 9 && forall i | 0 <= i < |s| :: 'A' <= s[i] <= 'Z'
  }

  lemma {:induction false} FindOfPlainName(s: string)
    requires PlainName(s)
    ensures FindRedisCmd(s) == Named(s)
  {
    assert Upper(s) == s;
  }

  // Every name, as a text.

  lemma {:induction false} ThreeLettersTexts(n: string)
    ensures ThreeLetters(n) == ACL <==> n == "ACL"
    ensures ThreeLetters(n) == SET <==> n == "SET"
    ensures ThreeLetters(n) == GET <==> n == "GET"
    ensures ThreeLetters(n) == DEL <==> n == "DEL"
    ensures ThreeLetters(n) == TTL <==> n == "TTL"
    ensures ThreeLetters(n) != UNKNOWN ==> |n| == 3
  {
  }

  lemma {:induction false} FourAToITexts(n: string)
    ensures FourAToI(n) == ECHO <==> n == "ECHO"
    ensures FourAToI(n) == INFO <==> n == "INFO"
    ensures FourAToI(n) == AUTH <==> n == "AUTH"
    ensures FourAToI(n) == INCR <==> n == "INCR"
    ensures FourAToI(n) == DECR <==> n == "DECR"
    ensures FourAToI(n) == EXEC <==> n == "EXEC"
    ensures FourAToI(n) == HSET <==> n == "HSET"
    ensures FourAToI(n) == HGET <==> n == "HGET"
    ensures FourAToI(n) == HDEL <==> n == "HDEL"
    ensures FourAToI(n) != UNKNOWN ==> |n| == 4 && n[0] <= 'I'
  {
  }

  lemma {:induction false} FourKToRTexts(n: string)
    ensures FourKToR(n) == PING <==> n == "PING"
    ensures FourKToR(n) == KEYS <==> n == "KEYS"
    ensures FourKToR(n) == MGET <==> n == "MGET"
    ensures FourKToR(n) == LPOP <==> n == "LPOP"
    ensures FourKToR(n) == RPOP <==> n == "RPOP"
    ensures FourKToR(n) == LLEN <==> n == "LLEN"
    ensures FourKToR(n) != UNKNOWN ==> |n| == 4 && 'I' < n[0] <= 'R'
  {
  }

  lemma {:induction false} FourSToZTexts(n: string)
    ensures FourSToZ(n) == WAIT <==> n == "WAIT"
    ensures FourSToZ(n) == TYPE <==> n == "TYPE"
    ensures FourSToZ(n) == SADD <==> n == "SADD"
    ensures FourSToZ(n) == SREM <==> n == "SREM"
    ensures FourSToZ(n) == XADD <==> n == "XADD"
    ensures FourSToZ(n) == ZADD <==> n == "ZADD"
    ensures FourSToZ(n) == ZREM <==> n == "ZREM"
    ensures FourSToZ(n) != UNKNOWN ==> |n| == 4 && 'R' < n[0]
  {
  }

  lemma {:induction false} FiveLettersTexts(n: string)
    ensures FiveLetters(n) == PSYNC <==> n == "PSYNC"
    ensures FiveLetters(n) == MULTI <==> n == "MULTI"
    ensures FiveLetters(n) == WATCH <==> n == "WATCH"
    ensures FiveLetters(n) == LPUSH <==> n == "LPUSH"
    ensures FiveLetters(n) == RPUSH <==> n == "RPUSH"
    ensures FiveLetters(n) == BLPOP <==> n == "BLPOP"
    ensures FiveLetters(n) == XREAD <==> n == "XREAD"
    ensures FiveLetters(n) == ZRANK <==> n == "ZRANK"
    ensures FiveLetters(n) == ZCARD <==> n == "ZCARD"
    ensures FiveLetters(n) != UNKNOWN ==> |n| == 5
  {
  }

  lemma {:induction false} SixAToLTexts(n: string)
    ensures SixAToL(n) == EXISTS <==> n == "EXISTS"
    ensures SixAToL(n) == EXPIRE <==> n == "EXPIRE"
    ensures SixAToL(n) == APPEND <==> n == "APPEND"
    ensures SixAToL(n) == LRANGE <==> n == "LRANGE"
    ensures SixAToL(n) == GEOADD <==> n == "GEOADD"
    ensures SixAToL(n) == GEOPOS <==> n == "GEOPOS"
    ensures SixAToL(n) != UNKNOWN ==> |n| == 6 && n[0] <= 'L'
  {
  }

  lemma {:induction false} SixMToZTexts(n: string)
    ensures SixMToZ(n) == SELECT <==> n == "SELECT"
    ensures SixMToZ(n) == STRLEN <==> n == "STRLEN"
    ensures SixMToZ(n) == XRANGE <==> n == "XRANGE"
    ensures SixMToZ(n) == XGROUP <==> n == "XGROUP"
    ensures SixMToZ(n) == ZRANGE <==> n == "ZRANGE"
    ensures SixMToZ(n) == ZSCORE <==> n == "ZSCORE"
    ensures SixMToZ(n) != UNKNOWN ==> |n| == 6 && 'L' < n[0]
  {
  }

  lemma {:induction false} SevenLettersTexts(n: string)
    ensures SevenLetters(n) == COMMAND <==> n == "COMMAND"
    ensures SevenLetters(n) == DISCARD <==> n == "DISCARD"
    ensures SevenLetters(n) == UNWATCH <==> n == "UNWATCH"
    ensures SevenLetters(n) == HGETALL <==> n == "HGETALL"
    ensures SevenLetters(n) == GEODIST <==> n == "GEODIST"
    ensures SevenLetters(n) == PUBLISH <==> n == "PUBLISH"
    ensures SevenLetters(n) != UNKNOWN ==> |n| == 7
  {
  }

  lemma {:induction false} LongerLettersTexts(n: string)
    ensures LongerLetters(n) == REPLCONF <==> n == "REPLCONF"
    ensures LongerLetters(n) == SMEMBERS <==> n == "SMEMBERS"
    ensures LongerLetters(n) == SISMEMBER <==> n == "SISMEMBER"
    ensures LongerLetters(n) == GEOSEARCH <==> n == "GEOSEARCH"
    ensures LongerLetters(n) == SUBSCRIBE <==> n == "SUBSCRIBE"
    ensures LongerLetters(n) == UNSUBSCRIBE <==> n == "UNSUBSCRIBE"
    ensures LongerLetters(n) != UNKNOWN ==> |n| > 7
  {
  }

  lemma {:induction false} ThreeLettersNames(n: string)
    ensures Named(n) == ACL <==> n == "ACL"
    ensures Named(n) == SET <==> n == "SET"
    ensures Named(n) == GET <==> n == "GET"
    ensures Named(n) == DEL <==> n == "DEL"
    ensures Named(n) == TTL <==> n == "TTL"
  {
    hide ThreeLetters, FourAToI, FourKToR, FourSToZ, FiveLetters, SixAToL, SixMToZ, SevenLetters, LongerLetters;
    ThreeLettersTexts(n);
  }

  lemma {:induction false} FourAToINames(n: string)
    ensures Named(n) == ECHO <==> n == "ECHO"
    ensures Named(n) == INFO <==> n == "INFO"
    ensures Named(n) == AUTH <==> n == "AUTH"
    ensures Named(n) == INCR <==> n == "INCR"
    ensures Named(n) == DECR <==> n == "DECR"
    ensures Named(n) == EXEC <==> n == "EXEC"
    ensures Named(n) == HSET <==> n == "HSET"
    ensures Named(n) == HGET <==> n == "HGET"
    ensures Named(n) == HDEL <==> n == "HDEL"
  {
    hide ThreeLetters, FourAToI, FourKToR, FourSToZ, FiveLetters, SixAToL, SixMToZ, SevenLetters, LongerLetters;
    FourAToITexts(n);
  }

  lemma {:induction false} FourKToRNames(n: string)
    ensures Named(n) == PING <==> n == "PING"
    ensures Named(n) == KEYS <==> n == "KEYS"
    ensures Named(n) == MGET <==> n == "MGET"
    ensures Named(n) == LPOP <==> n == "LPOP"
    ensures Named(n) == RPOP <==> n == "RPOP"
    ensures Named(n) == LLEN <==> n == "LLEN"
  {
    hide ThreeLetters, FourAToI, FourKToR, FourSToZ, FiveLetters, SixAToL, SixMToZ, SevenLetters, LongerLetters;
    FourKToRTexts(n);
  }

  lemma {:induction false} FourSToZNames(n: string)
    ensures Named(n) == WAIT <==> n == "WAIT"
    ensures Named(n) == TYPE <==> n == "TYPE"
    ensures Named(n) == SADD <==> n == "SADD"
    ensures Named(n) == SREM <==> n == "SREM"
    ensures Named(n) == XADD <==> n == "XADD"
    ensures Named(n) == ZADD <==> n == "ZADD"
    ensures Named(n) == ZREM <==> n == "ZREM"
  {
    hide ThreeLetters, FourAToI, FourKToR, FourSToZ, FiveLetters, SixAToL, SixMToZ, SevenLetters, LongerLetters;
    FourSToZTexts(n);
  }

  lemma {:induction false} FiveLettersNames(n: string)
    ensures Named(n) == PSYNC <==> n == "PSYNC"
    ensures Named(n) == MULTI <==> n == "MULTI"
    ensures Named(n) == WATCH <==> n == "WATCH"
    ensures Named(n) == LPUSH <==> n == "LPUSH"
    ensures Named(n) == RPUSH <==> n == "RPUSH"
    ensures Named(n) == BLPOP <==> n == "BLPOP"
    ensures Named(n) == XREAD <==> n == "XREAD"
    ensures Named(n) == ZRANK <==> n == "ZRANK"
    ensures Named(n) == ZCARD <==> n == "ZCARD"
  {
    hide ThreeLetters, FourAToI, FourKToR, FourSToZ, FiveLetters, SixAToL, SixMToZ, SevenLetters, LongerLetters;
    FiveLettersTexts(n);
  }

  lemma {:induction false} SixAToLNames(n: string)
    ensures Named(n) == EXISTS <==> n == "EXISTS"
    ensures Named(n) == EXPIRE <==> n == "EXPIRE"
    ensures Named(n) == APPEND <==> n == "APPEND"
    ensures Named(n) == LRANGE <==> n == "LRANGE"
    ensures Named(n) == GEOADD <==> n == "GEOADD"
    ensures Named(n) == GEOPOS <==> n == "GEOPOS"
  {
    hide ThreeLetters, FourAToI, FourKToR, FourSToZ, FiveLetters, SixAToL, SixMToZ, SevenLetters, LongerLetters;
    SixAToLTexts(n);
  }

  lemma {:induction false} SixMToZNames(n: string)
    ensures Named(n) == SELECT <==> n == "SELECT"
    ensures Named(n) == STRLEN <==> n == "STRLEN"
    ensures Named(n) == XRANGE <==> n == "XRANGE"
    ensures Named(n) == XGROUP <==> n == "XGROUP"
    ensures Named(n) == ZRANGE <==> n == "ZRANGE"
    ensures Named(n) == ZSCORE <==> n == "ZSCORE"
  {
    hide ThreeLetters, FourAToI, FourKToR, FourSToZ, FiveLetters, SixAToL, SixMToZ, SevenLetters, LongerLetters;
    SixMToZTexts(n);
  }

  lemma {:induction false} SevenLettersNames(n: string)
    ensures Named(n) == COMMAND <==> n == "COMMAND"
    ensures Named(n) == DISCARD <==> n == "DISCARD"
    ensures Named(n) == UNWATCH <==> n == "UNWATCH"
    ensures Named(n) == HGETALL <==> n == "HGETALL"
    ensures Named(n) == GEODIST <==> n == "GEODIST"
    ensures Named(n) == PUBLISH <==> n == "PUBLISH"
  {
    hide ThreeLetters, FourAToI, FourKToR, FourSToZ, FiveLetters, SixAToL, SixMToZ, SevenLetters, LongerLetters;
    SevenLettersTexts(n);
  }

  lemma {:induction false} LongerLettersNames(n: string)
    ensures Named(n) == REPLCONF <==> n == "REPLCONF"
    ensures Named(n) == SMEMBERS <==> n == "SMEMBERS"
    ensures Named(n) == SISMEMBER <==> n == "SISMEMBER"
    ensures Named(n) == GEOSEARCH <==> n == "GEOSEARCH"
    ensures Named(n) == SUBSCRIBE <==> n == "SUBSCRIBE"
    ensures Named(n) == UNSUBSCRIBE <==> n == "UNSUBSCRIBE"
  {
    hide ThreeLetters, FourAToI, FourKToR, FourSToZ, FiveLetters, SixAToL, SixMToZ, SevenLetters, LongerLetters;
    LongerLettersTexts(n);
  }

  /** findRedisCmd knows exactly these names, in any mixture of upper and lower case. */
  lemma {:induction false} EveryName(name: string)
    ensures FindRedisCmd(name) == ECHO <==> Upper(name) == "ECHO"
    ensures FindRedisCmd(name) == PING <==> Upper(name) == "PING"
    ensures FindRedisCmd(name) == INFO <==> Upper(name) == "INFO"
    ensures FindRedisCmd(name) == REPLCONF <==> Upper(name) == "REPLCONF"
    ensures FindRedisCmd(name) == WAIT <==> Upper(name) == "WAIT"
    ensures FindRedisCmd(name) == PSYNC <==> Upper(name) == "PSYNC"
    ensures FindRedisCmd(name) == KEYS <==> Upper(name) == "KEYS"
    ensures FindRedisCmd(name) == AUTH <==> Upper(name) == "AUTH"
    ensures FindRedisCmd(name) == SELECT <==> Upper(name) == "SELECT"
    ensures FindRedisCmd(name) == COMMAND <==> Upper(name) == "COMMAND"
    ensures FindRedisCmd(name) == ACL <==> Upper(name) == "ACL"
    ensures FindRedisCmd(name) == SET <==> Upper(name) == "SET"
    ensures FindRedisCmd(name) == GET <==> Upper(name) == "GET"
    ensures FindRedisCmd(name) == DEL <==> Upper(name) == "DEL"
    ensures FindRedisCmd(name) == EXISTS <==> Upper(name) == "EXISTS"
    ensures FindRedisCmd(name) == EXPIRE <==> Upper(name) == "EXPIRE"
    ensures FindRedisCmd(name) == TTL <==> Upper(name) == "TTL"
    ensures FindRedisCmd(name) == TYPE <==> Upper(name) == "TYPE"
    ensures FindRedisCmd(name) == INCR <==> Upper(name) == "INCR"
    ensures FindRedisCmd(name) == DECR <==> Upper(name) == "DECR"
    ensures FindRedisCmd(name) == APPEND <==> Upper(name) == "APPEND"
    ensures FindRedisCmd(name) == STRLEN <==> Upper(name) == "STRLEN"
    ensures FindRedisCmd(name) == MGET <==> Upper(name) == "MGET"
    ensures FindRedisCmd(name) == MULTI <==> Upper(name) == "MULTI"
    ensures FindRedisCmd(name) == EXEC <==> Upper(name) == "EXEC"
    ensures FindRedisCmd(name) == DISCARD <==> Upper(name) == "DISCARD"
    ensures FindRedisCmd(name) == WATCH <==> Upper(name) == "WATCH"
    ensures FindRedisCmd(name) == UNWATCH <==> Upper(name) == "UNWATCH"
    ensures FindRedisCmd(name) == LPUSH <==> Upper(name) == "LPUSH"
    ensures FindRedisCmd(name) == RPUSH <==> Upper(name) == "RPUSH"
    ensures FindRedisCmd(name) == LPOP <==> Upper(name) == "LPOP"
    ensures FindRedisCmd(name) == RPOP <==> Upper(name) == "RPOP"
    ensures FindRedisCmd(name) == LLEN <==> Upper(name) == "LLEN"
    ensures FindRedisCmd(name) == LRANGE <==> Upper(name) == "LRANGE"
    ensures FindRedisCmd(name) == BLPOP <==> Upper(name) == "BLPOP"
    ensures FindRedisCmd(name) == HSET <==> Upper(name) == "HSET"
    ensures FindRedisCmd(name) == HGET <==> Upper(name) == "HGET"
    ensures FindRedisCmd(name) == HGETALL <==> Upper(name) == "HGETALL"
    ensures FindRedisCmd(name) == HDEL <==> Upper(name) == "HDEL"
    ensures FindRedisCmd(name) == SADD <==> Upper(name) == "SADD"
    ensures FindRedisCmd(name) == SREM <==> Upper(name) == "SREM"
    ensures FindRedisCmd(name) == SMEMBERS <==> Upper(name) == "SMEMBERS"
    ensures FindRedisCmd(name) == SISMEMBER <==> Upper(name) == "SISMEMBER"
    ensures FindRedisCmd(name) == XADD <==> Upper(name) == "XADD"
    ensures FindRedisCmd(name) == XREAD <==> Upper(name) == "XREAD"
    ensures FindRedisCmd(name) == XRANGE <==> Upper(name) == "XRANGE"
    ensures FindRedisCmd(name) == XGROUP <==> Upper(name) == "XGROUP"
    ensures FindRedisCmd(name) == ZADD <==> Upper(name) == "ZADD"
    ensures FindRedisCmd(name) == ZRANK <==> Upper(name) == "ZRANK"
    ensures FindRedisCmd(name) == ZRANGE <==> Upper(name) == "ZRANGE"
    ensures FindRedisCmd(name) == ZCARD <==> Upper(name) == "ZCARD"
    ensures FindRedisCmd(name) == ZSCORE <==> Upper(name) == "ZSCORE"
    ensures FindRedisCmd(name) == GEOADD <==> Upper(name) == "GEOADD"
    ensures FindRedisCmd(name) == GEOPOS <==> Upper(name) == "GEOPOS"
    ensures FindRedisCmd(name) == GEODIST <==> Upper(name) == "GEODIST"
    ensures FindRedisCmd(name) == GEOSEARCH <==> Upper(name) == "GEOSEARCH"
    ensures FindRedisCmd(name) == SUBSCRIBE <==> Upper(name) == "SUBSCRIBE"
    ensures FindRedisCmd(name) == PUBLISH <==> Upper(name) == "PUBLISH"
    ensures FindRedisCmd(name) == UNSUBSCRIBE <==> Upper(name) == "UNSUBSCRIBE"
    ensures FindRedisCmd(name) == ZREM <==> Upper(name) == "ZREM"
  {
    hide Named;
    var n := Upper(name);
    ThreeLettersNames(n);
    FourAToINames(n);
    FourKToRNames(n);
    FourSToZNames(n);
    FiveLettersNames(n);
    SixAToLNames(n);
    SixMToZNames(n);
    SevenLettersNames(n);
    LongerLettersNames(n);
  }

  lemma {:induction false} NoConfigName(name: string)
    ensures FindRedisCmd(name) != CONFIG_GET
  {
    hide ThreeLetters, FourAToI, FourKToR, FourSToZ, FiveLetters, SixAToL, SixMToZ, SevenLetters, LongerLetters;
  }

  /** Every other text is UNKNOWN. */
  lemma {:induction false} OtherNames(name: string)
    ensures var n := Upper(name);
            FindRedisCmd(name) == UNKNOWN <==>
              n != "ECHO" && n != "PING" && n != "INFO" && n != "REPLCONF" && n != "WAIT" && n != "PSYNC"
              && n != "KEYS" && n != "AUTH" && n != "SELECT" && n != "COMMAND" && n != "ACL" && n != "SET"
              && n != "GET" && n != "DEL" && n != "EXISTS" && n != "EXPIRE" && n != "TTL" && n != "TYPE"
              && n != "INCR" && n != "DECR" && n != "APPEND" && n != "STRLEN" && n != "MGET" && n != "MULTI"
              && n != "EXEC" && n != "DISCARD" && n != "WATCH" && n != "UNWATCH" && n != "LPUSH" && n != "RPUSH"
              && n != "LPOP" && n != "RPOP" && n != "LLEN" && n != "LRANGE" && n != "BLPOP" && n != "HSET"
              && n != "HGET" && n != "HGETALL" && n != "HDEL" && n != "SADD" && n != "SREM" && n != "SMEMBERS"
              && n != "SISMEMBER" && n != "XADD" && n != "XREAD" && n != "XRANGE" && n != "XGROUP" && n != "ZADD"
              && n != "ZRANK" && n != "ZRANGE" && n != "ZCARD" && n != "ZSCORE" && n != "GEOADD" && n != "GEOPOS"
              && n != "GEODIST" && n != "GEOSEARCH" && n != "SUBSCRIBE" && n != "PUBLISH" && n != "UNSUBSCRIBE"
              && n != "ZREM"
  {
    hide FindRedisCmd;
    NoConfigName(name);
    EveryName(name);
  }

  // The recorded names, as printed.

  lemma {:induction false} ShortNames(cmd: Cmd)
    requires cmd in {SET, DEL, LPUSH, RPUSH}
    ensures PlainName(CmdToString(cmd)) && Named(CmdToString(cmd)) == cmd
  {
    hide Named;
    match cmd
    case SET => ThreeLettersNames("SET");
    case DEL => ThreeLettersNames("DEL");
    case LPUSH => FiveLettersNames("LPUSH");
    case RPUSH => FiveLettersNames("RPUSH");
  }

  lemma {:induction false} FieldNames(cmd: Cmd)
    requires cmd in {INCR, DECR, HSET, HDEL}
    ensures PlainName(CmdToString(cmd)) && Named(CmdToString(cmd)) == cmd
  {
    hide Named;
    match cmd
    case INCR => FourAToINames("INCR");
    case DECR => FourAToINames("DECR");
    case HSET => FourAToINames("HSET");
    case HDEL => FourAToINames("HDEL");
  }

  lemma {:induction false} MemberNames(cmd: Cmd)
    requires cmd in {SADD, SREM}
    ensures PlainName(CmdToString(cmd)) && Named(CmdToString(cmd)) == cmd
  {
    hide Named;
    match cmd
    case SADD => FourSToZNames("SADD");
    case SREM => FourSToZNames("SREM");
  }

  lemma {:induction false} PopNames(cmd: Cmd)
    requires cmd in {LPOP, RPOP, XADD}
    ensures PlainName(CmdToString(cmd)) && Named(CmdToString(cmd)) == cmd
  {
    hide Named;
    match cmd
    case LPOP => FourKToRNames("LPOP");
    case RPOP => FourKToRNames("RPOP");
    case XADD => FourSToZNames("XADD");
  }

  lemma {:induction false} LongNames(cmd: Cmd)
    requires cmd in {APPEND, EXPIRE, REPLCONF}
    ensures PlainName(CmdToString(cmd)) && Named(CmdToString(cmd)) == cmd
  {
    hide Named;
    match cmd
    case APPEND => SixAToLNames("APPEND");
    case EXPIRE => SixAToLNames("EXPIRE");
    case REPLCONF => LongerLettersNames("REPLCONF");
  }

  lemma {:induction false} UnknownText()
    ensures Named("UNKNOWN") == UNKNOWN
  {
  }

  lemma {:induction false} UnknownNames(cmd: Cmd)
    requires cmd in {ZADD, ZREM, GEOADD}
    ensures PlainName(CmdToString(cmd)) && Named(CmdToString(cmd)) == UNKNOWN
  {
    UnknownText();
    match cmd
    case ZADD => assert CmdToString(ZADD) == "UNKNOWN";
    case ZREM => assert CmdToString(ZREM) == "UNKNOWN";
    case GEOADD => assert CmdToString(GEOADD) == "UNKNOWN";
  }

  /** No recorded command is printed as CONFIG, which the parser treats on its own. */
  lemma {:induction false} NoNameStartsWithC(cmd: Cmd)
    requires Recorded(cmd)
    ensures CmdToString(cmd) != "" && CmdToString(cmd)[0] != 'C'
  {
  }

  /** Among the commands that are recorded, parsing the printed name gives the command back
      exactly for those other than ZADD, ZREM and GEOADD, which come back as UNKNOWN. */
  lemma {:induction false} FindInvertsPrint(cmd: Cmd)
    requires Recorded(cmd)
    ensures FindRedisCmd(CmdToString(cmd)) == if cmd.ZADD? || cmd.ZREM? || cmd.GEOADD? then UNKNOWN else cmd
    ensures PlainName(CmdToString(cmd))
  {
    match cmd {
      case SET | DEL | LPUSH | RPUSH => ShortNames(cmd);
      case INCR | DECR | HSET | HDEL => FieldNames(cmd);
      case SADD | SREM => MemberNames(cmd);
      case LPOP | RPOP | XADD => PopNames(cmd);
      case APPEND | EXPIRE | REPLCONF => LongNames(cmd);
      case ZADD | ZREM | GEOADD => UnknownNames(cmd);
    }
    FindOfPlainName(CmdToString(cmd));
  }
}
