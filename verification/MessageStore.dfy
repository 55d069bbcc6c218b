/** The abstract store behind database.c: a name-keyed user table and one queue of
    pending messages per receiver. Each db_* call is one atomic step on it. */
module MessageStore {
  import opened Text
  import opened Mail

  datatype User = User(online: bool, ip: string, port: int, lastId: nat)

  datatype Store = Store(users: map<string, User>, boxes: map<string, seq<PendingMsg>>)

  const NO_IP := "0.0.0.0"

  predicate Online(st: Store, user: string) {
    user in st.users && st.users[user].online
  }

  /** The pending messages of a receiver; no file and an empty file read the same. */
  function Box(st: Store, receiver: string): seq<PendingMsg> {
    if receiver in st.boxes then st.boxes[receiver] else []
  }

  // db_register
  function RegisterCode(st: Store, user: string): int {
    if user in st.users then 1 else 0
  }

  function Register(st: Store, user: string): Store {
    if user in st.users then st else st.(users := st.users[user := User(false, NO_IP, 0, 0)])
  }

  // db_unregister: the pending messages go with the user
  function UnregisterCode(st: Store, user: string): int {
    if user in st.users then 0 else 1
  }

  function Unregister(st: Store, user: string): Store {
    if user in st.users then Store(st.users - {user}, st.boxes - {user}) else st
  }

  // db_connect
  function ConnectCode(st: Store, user: string): int {
    if user !in st.users then 1 else if st.users[user].online then 2 else 0
  }

  function Connect(st: Store, user: string, ip: string, port: int): Store {
    if ConnectCode(st, user) == 0
    then st.(users := st.users[user := User(true, ip, port, st.users[user].lastId)])
    else st
  }

  // db_disconnect
  function DisconnectCode(st: Store, user: string): int {
    if user !in st.users then 1 else if !st.users[user].online then 2 else 0
  }

  function Disconnect(st: Store, user: string): Store {
    if DisconnectCode(st, user) == 0
    then st.(users := st.users[user := User(false, NO_IP, 0, st.users[user].lastId)])
    else st
  }

  // db_prepare_message
  function NextId(last: nat): nat {
    (if last == UINT_MAX then 0 else last) + 1
  }

  function PrepareCode(st: Store, sender: string, receiver: string): int {
    if sender in st.users && receiver in st.users then 0 else 1
  }

  function Prepare(st: Store, sender: string): Store
    requires sender in st.users
  {
    var u := st.users[sender];
    st.(users := st.users[sender := u.(lastId := NextId(u.lastId))])
  }

  // db_store_message
  function Deposit(st: Store, receiver: string, m: PendingMsg): Store {
    st.(boxes := st.boxes[receiver := Box(st, receiver) + [m]])
  }

  // db_delete_message: by id only, whoever the sender is
  function Remove(st: Store, receiver: string, id: nat): Store {
    if receiver in st.boxes then st.(boxes := st.boxes[receiver := WithoutId(st.boxes[receiver], id)]) else st
  }
}
