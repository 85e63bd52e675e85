/** The part of the file system the server consults, as a value: the paths
    that exist, each either readable (with its text) or not readable. A path
    that is not in the store does not exist (`fs::metadata` fails). */
module FileStore {

  datatype Entry = Readable(contents: string) | Unreadable

  type Store = map<string, Entry>

  /** `fs::read_to_string` succeeds on `path`. */
  predicate CanRead(store: Store, path: string) {
    path in store && store[path].Readable?
  }
}
