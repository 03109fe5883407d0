/**
 * The class-metadata service of the weaving context (context.detector and its
 * class mirrors), as a table from class names to the methods they declare.
 * Loading classes to fill the table is not modelled.
 */
module Mirrors {

  import opened Options

  /** A declared method: its name, its descriptor and its declared exception classes (null when absent). */
  datatype MethodMirror = MethodMirror(name: string, desc: string, exceptionTypes: array?<string>)

  datatype ClassMirror = ClassMirror(declaredMethods: seq<MethodMirror>)

  type Detector = map<string, ClassMirror>

  /** detector.classForName: None stands for ClassMirrorNotFoundException. */
  function ClassForName(detector: Detector, className: string): Option<ClassMirror>
  {
    if className in detector then Some(detector[className]) else None
  }

  predicate Declares(m: MethodMirror, name: string, desc: string)
  {
    m.name == name && m.desc == desc
  }
}
