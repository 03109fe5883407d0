/** Optional values: the null results and "not found" outcomes of the Java code (a missing class mirror, no matching method). */
module Options {

  datatype Option<+T> = None | Some(value: T)
}
