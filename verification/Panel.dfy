/**
 What the panel sends and receives, as far as the node's own logic looks at it.
 */
module Panel {

  datatype UserInfo = UserInfo(id: int, uuid: string, speedLimit: int, deviceLimit: int)

  datatype NodeInfo = NodeInfo(kind: string, id: int, tls: bool, pullInterval: int, pushInterval: int)

  datatype OnlineUser = OnlineUser(uid: int, ip: string)

  datatype UserTraffic = UserTraffic(uid: int, upload: int, download: int)

  function Elements<T>(s: seq<T>): set<T> {
    set x | x in s
  }

  /** The name of a user on a node, used as the key of every per-user table. */
  function UserTag(tag: string, uuid: string): string {
    tag + "|" + uuid
  }

  /** On one node, different uuids have different names. */
  lemma UserTagInjective(tag: string, a: string, b: string)
    ensures UserTag(tag, a) == UserTag(tag, b) <==> a == b
  {
    assert UserTag(tag, a)[|tag| + 1..] == a;
    assert UserTag(tag, b)[|tag| + 1..] == b;
  }
}
